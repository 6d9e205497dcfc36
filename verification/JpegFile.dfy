/** The whole file: what the encoder writes, and a T.81 baseline reader that recovers the picture's blocks. */
module JpegFile {
  import opened Bits
  import opened Wrappers
  import opened Huffman
  import opened BitWriter
  import opened Bytes
  import opened Entropy
  import opened Dct
  import opened Pixels
  import opened Scan
  import opened Segments
  import StandardTables

  /** Cb and Cr share the chroma tables. */
  function EncoderCoders(sp: Specs): Coders
    requires sp.Sized()
  {
    var y := Pair(CoderOf(sp.dcLuma.Table()), CoderOf(sp.acLuma.Table()));
    var c := Pair(CoderOf(sp.dcChroma.Table()), CoderOf(sp.acChroma.Table()));
    Coders(y, c, c)
  }

  function PictureUnits(img: Image, quality: nat): seq<Unit>
    requires img.Valid()
  {
    Units(img, LumaSteps(quality), ChromaSteps(quality), McusAcross(img.height))
  }

  function PictureBits(sp: Specs, img: Image, quality: nat): seq<bool>
    requires sp.Sized() && img.Valid()
  {
    StreamBits(sp, img, LumaSteps(quality), ChromaSteps(quality))
  }

  /** The scan and the complete JPEG stream of a picture, for any quantisers. */
  function StreamBits(sp: Specs, img: Image, ql: seq<Step>, qc: seq<Step>): seq<bool>
    requires sp.Sized() && img.Valid() && |ql| == |qc| == 64
  {
    ScanBits(EncoderCoders(sp), Units(img, ql, qc, McusAcross(img.height)), START)
  }

  function Stream(sp: Specs, img: Image, ql: seq<Step>, qc: seq<Step>): seq<byte>
    requires sp.Sized() && img.Valid() && |ql| == |qc| == 64
  {
    HeaderBytes(sp, img.width, img.height, ql, qc) + ScanBytes(StreamBits(sp, img, ql, qc)) + EOI
  }

  function FileBytes(sp: Specs, img: Image, quality: nat): seq<byte>
    requires sp.Sized() && img.Valid()
  {
    Stream(sp, img, LumaSteps(quality), ChromaSteps(quality))
  }

  // ---- The reader --------------------------------------------------------------

  /** What a file says: sizes, the quantiser of each component in natural order, tables, and coded blocks. */
  datatype Jpeg = Jpeg(width: nat, height: nat, quantisers: seq<seq<byte>>, tables: seq<(HuffTable, HuffTable)>,
                       blocks: seq<(Comp, seq<int>)>)

  /** The tables a scan header selects for component `c`; the scan lists the frame's components in order. */
  function Selected(h: Header, sos: seq<byte>, c: Comp): Option<(HuffTable, HuffTable)>
    requires |sos| == 10 && |h.comps| == 3
  {
    var id, sel := sos[1 + 2 * c], sos[2 + 2 * c];
    var dc, ac := sel / 16, 16 + sel % 16;
    if id != h.comps[c].id || dc !in h.dht || ac !in h.dht then None else Some((h.dht[dc], h.dht[ac]))
  }

  function Max3(a: nat, b: nat, c: nat): (m: nat)
    ensures a <= m && b <= m && c <= m
  {
    var n := if a < b then b else a;
    if n < c then c else n
  }

  /** The blocks of one MCU (T.81 section A.2.3). */
  function Pattern(comps: seq<FrameComp>): seq<Comp>
    requires |comps| == 3
  {
    Repeat<Comp>(0, comps[0].h * comps[0].v) + Repeat<Comp>(1, comps[1].h * comps[1].v)
    + Repeat<Comp>(2, comps[2].h * comps[2].v)
  }

  function DivUp(n: nat, d: nat): nat
    requires d > 0
  {
    (n + d - 1) / d
  }

  /** The MCUs of the picture, for the largest sampling factors of its components. */
  function McuCount(h: Header): nat
    requires |h.comps| == 3
  {
    var x := Max3(h.comps[0].h, h.comps[1].h, h.comps[2].h);
    var y := Max3(h.comps[0].v, h.comps[1].v, h.comps[2].v);
    if x == 0 || y == 0 then 0 else DivUp(h.height, 8 * y) * DivUp(h.width, 8 * x)
  }

  /** Reads the coded blocks; only padding ones may remain. */
  function DecodeScan(h: Header, c: Coders, w: seq<byte>): Option<seq<(Comp, seq<int>)>>
    requires |h.comps| == 3
  {
    match DecodeUnits(c, Cycle(Pattern(h.comps), McuCount(h)), BytesBits(w), START)
    case None => None
    case Some((blocks, left)) => if |left| < 8 && left == Repeat(true, |left|) then Some(blocks) else None
  }

  function DecodeFrame(h: Header, sos: seq<byte>, w: seq<byte>): Option<Jpeg> {
    if |h.comps| != 3 || |sos| != 10 || sos[0] != 3 || sos[7..] != [0x00, 0x3f, 0x00] then None
    else if h.comps[0].tq !in h.q || h.comps[1].tq !in h.q || h.comps[2].tq !in h.q then None
    else
      match (Selected(h, sos, 0), Selected(h, sos, 1), Selected(h, sos, 2))
      case (Some(y), Some(cb), Some(cr)) =>
        var c := Coders(Pair(CoderOf(y.0), CoderOf(y.1)), Pair(CoderOf(cb.0), CoderOf(cb.1)),
                        Pair(CoderOf(cr.0), CoderOf(cr.1)));
        (match DecodeScan(h, c, w)
         case None => None
         case Some(blocks) =>
           Some(Jpeg(h.width, h.height, [h.q[h.comps[0].tq], h.q[h.comps[1].tq], h.q[h.comps[2].tq]],
                     [y, cb, cr], blocks)))
      case _ => None
  }

  /** A complete baseline stream: SOI, segments, one scan, EOI, and nothing after it. */
  function DecodeJpeg(s: seq<byte>): Option<Jpeg> {
    if |s| < 2 || s[..2] != SOI then None
    else
      match ParseSegments(s[2..], EMPTY)
      case None => None
      case Some((h, sos, rest)) =>
        match Unstuff(rest)
        case None => None
        case Some((w, tail)) => if tail != EOI then None else DecodeFrame(h, sos, w)
  }

  // ---- Recovery -----------------------------------------------------------------

  lemma {:induction false} SpecReady(sp: Specs)
    requires sp.Valid()
    ensures EncoderCoders(sp).Ready()
  {
    DcSpecReady(sp.dcLuma);
    DcSpecReady(sp.dcChroma);
    AcSpecReady(sp.acLuma);
    AcSpecReady(sp.acChroma);
  }

  lemma {:induction false} SpecInverts(t: Spec, s: nat)
    requires t.Sized() && Histogram(t.bits, t.vals) && s < 256 && s in t.vals
    ensures CoderOf(t.Table()).Inverts(s)
  {
    CanonicalPrefixFree(t.bits, t.vals);
    TableInverts(t.Table(), s);
  }

  lemma {:induction false} DcSpecReady(t: Spec)
    requires t.Sized() && Histogram(t.bits, t.vals) && forall s: nat | s <= 11 :: s in t.vals
    ensures DcReady(CoderOf(t.Table()))
  {
    forall s: nat | s <= 11 ensures CoderOf(t.Table()).Inverts(s) { SpecInverts(t, s); }
  }

  lemma {:induction false} AcSpecReady(t: Spec)
    requires t.Sized() && Histogram(t.bits, t.vals) && StandardTables.Complete(t.vals)
    ensures AcReady(CoderOf(t.Table()))
  {
    SpecInverts(t, 0x00);
    SpecInverts(t, 0xf0);
    forall r: nat, s: nat | r < 16 && 1 <= s <= 10
      ensures CoderOf(t.Table()).Inverts(StandardTables.Sym(r, s))
    {
      SpecInverts(t, StandardTables.Sym(r, s));
    }
  }

  /** The scan bytes of a picture decode to its blocks, and the rest is padding. */
  lemma {:induction false} PictureRoundTrip(sp: Specs, img: Image, quality: nat, pad: seq<bool>)
    requires sp.Valid() && img.Valid()
    ensures DecodeUnits(EncoderCoders(sp), Cycle(PATTERN, McusAcross(img.height) * McusAcross(img.width)),
                        PictureBits(sp, img, quality) + pad, START)
            == Some((Values(PictureUnits(img, quality)), pad))
  {
    var ql, qc, n := LumaSteps(quality), ChromaSteps(quality), McusAcross(img.height);
    SpecReady(sp);
    PictureEncodable(img, ql, qc, n);
    UnitComps(img, ql, qc, n);
    ScanRoundTrip(EncoderCoders(sp), PictureUnits(img, quality), START, pad);
  }

  lemma {:induction false} EncoderPattern(h: Header)
    requires h.comps == FrameComps() && h.width < 0x1_0000 && h.height < 0x1_0000
    ensures Pattern(h.comps) == PATTERN && McuCount(h) == McusAcross(h.height) * McusAcross(h.width)
  {
    assert Repeat<Comp>(0, 4) == [0, 0, 0, 0];
    assert Repeat<Comp>(1, 1) == [1] && Repeat<Comp>(2, 1) == [2];
  }

  lemma {:induction false} DecodePicture(sp: Specs, img: Image, quality: nat, h: Header)
    requires sp.Valid() && img.Valid()
    requires h.comps == FrameComps() && h.width == img.width < 0x1_0000 && h.height == img.height < 0x1_0000
    ensures DecodeScan(h, EncoderCoders(sp), Pack(Pad(PictureBits(sp, img, quality))))
            == Some(Values(PictureUnits(img, quality)))
  {
    var bits := PictureBits(sp, img, quality);
    var pad := Pad(bits)[|bits|..];
    BitsPack(Pad(bits));
    assert Pad(bits) == bits + pad && pad == Repeat(true, |pad|);
    PictureRoundTrip(sp, img, quality, pad);
    EncoderPattern(h);
  }

  /** The recovered file: sizes, quantisers, Huffman tables and every block, in scan order. */
  function Recovered(sp: Specs, img: Image, quality: nat): Jpeg
    requires sp.Sized() && img.Valid()
  {
    var ql, qc := LumaSteps(quality), ChromaSteps(quality);
    var y, c := (sp.dcLuma.Table(), sp.acLuma.Table()), (sp.dcChroma.Table(), sp.acChroma.Table());
    Jpeg(img.width, img.height, [ql, qc, qc], [y, c, c], Values(PictureUnits(img, quality)))
  }

  lemma {:induction false} SelectedTables(sp: Specs, h: Header)
    requires sp.Sized() && h.comps == FrameComps() && h.dht == HuffTables(sp)
    ensures var sos := Sos().payload;
      && |sos| == 10 && sos[0] == 3 && sos[7..] == [0x00, 0x3f, 0x00]
      && Selected(h, sos, 0) == Some((sp.dcLuma.Table(), sp.acLuma.Table()))
      && Selected(h, sos, 1) == Selected(h, sos, 2) == Some((sp.dcChroma.Table(), sp.acChroma.Table()))
  {
    assert Sos().payload[7..] == [0x00, 0x3f, 0x00];
  }

  lemma {:induction false} DecodeFrameRecovers(sp: Specs, img: Image, quality: nat)
    requires sp.Valid() && img.Valid() && img.width < 0x1_0000 && img.height < 0x1_0000
    ensures DecodeFrame(ReadHeader(sp, img.width, img.height, LumaSteps(quality), ChromaSteps(quality)), Sos().payload,
                        Pack(Pad(PictureBits(sp, img, quality)))) == Some(Recovered(sp, img, quality))
  {
    var h := ReadHeader(sp, img.width, img.height, LumaSteps(quality), ChromaSteps(quality));
    SelectedTables(sp, h);
    DecodePicture(sp, img, quality, h);
  }

  lemma {:induction false} DecodeParts(head: seq<byte>, w: seq<byte>, h: Header, sos: seq<byte>)
    requires |head| >= 2 && head[..2] == SOI
    requires ParseSegments(head[2..] + (Stuff(w) + EOI), EMPTY) == Some((h, sos, Stuff(w) + EOI))
    ensures DecodeJpeg(head + Stuff(w) + EOI) == DecodeFrame(h, sos, w)
  {
    var s := head + Stuff(w) + EOI;
    Assoc(head, Stuff(w), EOI);
    assert s[..2] == SOI && s[2..] == head[2..] + (Stuff(w) + EOI);
    UnstuffStuff(w, EOI);
  }

  /** For every picture of at most 65535 by 65535 and every quality, the reader recovers the whole file. */
  lemma {:induction false} FileRoundTrip(sp: Specs, img: Image, quality: nat)
    requires sp.Valid() && img.Valid() && img.width < 0x1_0000 && img.height < 0x1_0000
    ensures DecodeJpeg(FileBytes(sp, img, quality)) == Some(Recovered(sp, img, quality))
  {
    var ql, qc := LumaSteps(quality), ChromaSteps(quality);
    var head := HeaderBytes(sp, img.width, img.height, ql, qc);
    var w := Pack(Pad(PictureBits(sp, img, quality)));
    HeaderRoundTrip(sp, img.width, img.height, ql, qc, Stuff(w) + EOI);
    HeaderStart(sp, img.width, img.height, ql, qc);
    DecodeParts(head, w, ReadHeader(sp, img.width, img.height, ql, qc), Sos().payload);
    DecodeFrameRecovers(sp, img, quality);
  }

  /** Every file starts as a JFIF file. */
  lemma {:induction false} StartsAsJfif(sp: Specs, img: Image, quality: nat)
    requires sp.Sized() && img.Valid()
    ensures Jfif() <= FileBytes(sp, img, quality)
  {
    HeaderIsJfif(sp, img.width, img.height, LumaSteps(quality), ChromaSteps(quality));
  }

  /** Six blocks per 16 by 16 MCU, in the order of T.81 section A.2.3. */
  lemma {:induction false} BlockCount(img: Image, quality: nat)
    requires img.Valid()
    ensures Comps(PictureUnits(img, quality)) == Cycle(PATTERN, McusAcross(img.height) * McusAcross(img.width))
    ensures |PictureUnits(img, quality)| == 6 * (McusAcross(img.height) * McusAcross(img.width))
  {
    UnitComps(img, LumaSteps(quality), ChromaSteps(quality), McusAcross(img.height));
    CycleLength(McusAcross(img.height) * McusAcross(img.width));
  }

  lemma {:induction false} CycleLength(n: nat)
    ensures |Cycle(PATTERN, n)| == 6 * n
  {
    if n > 0 { CycleLength(n - 1); }
  }
}
