/** `t6_jpeg_encode_xrgb8888` and what it calls (trigger6_codec.c:258-286, 355-452, 525-739). */
module JpegEncoder {
  import opened Bits
  import opened Wrappers
  import opened Huffman
  import opened BitWriter
  import opened Bytes
  import opened Entropy
  import opened Dct
  import opened Pixels
  import opened Scan
  import opened Segments
  import opened JpegFile
  import opened Errno

  // ---- Tables ---------------------------------------------------------------------

  datatype Tables = Tables(dcLuma: HuffTable, acLuma: HuffTable, dcChroma: HuffTable, acChroma: HuffTable) {
    ghost predicate Fit() {
      dcLuma.Fits() && acLuma.Fits() && dcChroma.Fits() && acChroma.Fits()
    }

    function Luma(): Pair { Pair(CoderOf(dcLuma), CoderOf(acLuma)) }

    function Chroma(): Pair { Pair(CoderOf(dcChroma), CoderOf(acChroma)) }

    function C(): Coders { Coders(Luma(), Chroma(), Chroma()) }
  }

  method BuildTable(t: Spec) returns (h: HuffTable)
    requires t.Sized() && Histogram(t.bits, t.vals)
    ensures h == t.Table() && h.Fits()
  {
    var codes, sizes := new nat[256], new nat[256];
    BuildHuff(codes, sizes, t.bits, t.vals);
    CanonicalFits(t.bits, t.vals);
    h := Table(codes[..], sizes[..]);
  }

  /** `t6_jpeg_init_huff_tables` (trigger6_codec.c:258-286), without its lock. */
  method InitHuffTables(sp: Specs) returns (t: Tables)
    requires sp.Valid()
    ensures t.Fit() && t.C() == EncoderCoders(sp)
  {
    var dcLuma := BuildTable(sp.dcLuma);
    var acLuma := BuildTable(sp.acLuma);
    var dcChroma := BuildTable(sp.dcChroma);
    var acChroma := BuildTable(sp.acChroma);
    t := Tables(dcLuma, acLuma, dcChroma, acChroma);
  }

  // ---- Headers ----------------------------------------------------------------------

  method PutSegment(ctx: JpegCtx, s: Segment) returns (ok: bool)
    requires ctx.Bounded()
    modifies ctx`pos, ctx`overflow, ctx.dst
    ensures ctx.Bounded()
    ensures ok == (old(ctx.pos) + |SegmentBytes(s)| <= ctx.dstSize)
    ensures ok ==> ctx.Out() == old(ctx.Out()) + SegmentBytes(s)
    ensures ctx.overflow == (old(ctx.overflow) || !ok)
  {
    ok := ctx.PutBytes([0xff, s.marker]);
    if ok {
      ok := ctx.PutBytes(Be16(s.length));
    }
    if ok {
      ok := ctx.PutBytes(s.payload);
    }
  }

  /** Writes segment `k`; a failure means that the whole list does not fit. */
  method PutNext(ctx: JpegCtx, s: Segment, ghost segs: seq<Segment>, ghost k: nat) returns (ok: bool)
    requires ctx.Unscanned() && k < |segs| && s == segs[k]
    requires ctx.Out() == SOI + AllBytes(segs[..k])
    modifies ctx`pos, ctx`overflow, ctx.dst
    ensures ctx.Bounded() && ctx.overflow == !ok
    ensures if ok then ctx.Unscanned() && ctx.Out() == SOI + AllBytes(segs[..k + 1])
            else ctx.dstSize < 2 + |AllBytes(segs)|
  {
    AllBytesSplit(segs, k);
    ok := PutSegment(ctx, s);
  }

  lemma {:induction false} AllBytesAdd(a: seq<Segment>, b: seq<Segment>)
    ensures AllBytes(a + b) == AllBytes(a) + AllBytes(b)
  {
    if a == [] {
      assert a + b == b;
    } else {
      assert (a + b)[1..] == a[1..] + b;
      AllBytesAdd(a[1..], b);
      Assoc(SegmentBytes(a[0]), AllBytes(a[1..]), AllBytes(b));
    }
  }

  lemma {:induction false} AllBytesSplit(segs: seq<Segment>, k: nat)
    requires k < |segs|
    ensures SOI + AllBytes(segs[..k + 1]) == SOI + AllBytes(segs[..k]) + SegmentBytes(segs[k])
    ensures |AllBytes(segs[..k])| + |SegmentBytes(segs[k])| <= |AllBytes(segs)|
  {
    assert segs[..k + 1] == segs[..k] + [segs[k]] && segs == segs[..k + 1] + segs[k + 1..];
    assert [segs[k]][1..] == [] && AllBytes([segs[k]]) == SegmentBytes(segs[k]);
    AllBytesAdd(segs[..k], [segs[k]]);
    AllBytesAdd(segs[..k + 1], segs[k + 1..]);
  }

  lemma {:induction false} HeaderSegments(sp: Specs, width: nat, height: nat, ql: seq<Step>, qc: seq<Step>)
      returns (segs: seq<Segment>)
    requires sp.Sized() && |ql| == |qc| == 64
    ensures |segs| == 9 && segs[0] == App0() && segs[1] == Dqt(0x00, ql) && segs[2] == Dqt(0x01, qc)
    ensures segs[3] == Sof0(width, height)
    ensures segs[4] == Dht(0x00, 31, sp.dcLuma) && segs[5] == Dht(0x10, 181, sp.acLuma)
    ensures segs[6] == Dht(0x01, 31, sp.dcChroma) && segs[7] == Dht(0x11, 181, sp.acChroma) && segs[8] == Sos()
    ensures SOI + AllBytes(segs) == HeaderBytes(sp, width, height, ql, qc)
    ensures AllBytes(segs[..0]) == [] && segs[..9] == segs
  {
    segs := FrameSegments(width, height, ql, qc) + HuffmanSegments(sp) + [Sos()];
  }

  /** `t6_jpeg_write_headers` (trigger6_codec.c:525-630). */
  method WriteHeaders(ctx: JpegCtx, sp: Specs, width: nat, height: nat, ql: seq<Step>, qc: seq<Step>) returns (ok: bool)
    requires ctx.Unscanned() && ctx.pos == 0 && sp.Sized() && |ql| == |qc| == 64
    modifies ctx`pos, ctx`overflow, ctx.dst
    ensures ctx.Bounded() && ctx.overflow == !ok
    ensures if ok then ctx.Unscanned() && ctx.Out() == HeaderBytes(sp, width, height, ql, qc)
            else ctx.dstSize < |HeaderBytes(sp, width, height, ql, qc)|
  {
    ghost var segs := HeaderSegments(sp, width, height, ql, qc);
    ok := ctx.PutBytes(SOI);
    if !ok { return; }
    assert ctx.Out() == SOI + AllBytes(segs[..0]);
    ok := PutNext(ctx, App0(), segs, 0);
    if !ok { return; }
    ok := PutNext(ctx, Dqt(0x00, ql), segs, 1);
    if !ok { return; }
    ok := PutNext(ctx, Dqt(0x01, qc), segs, 2);
    if !ok { return; }
    ok := PutNext(ctx, Sof0(width, height), segs, 3);
    if !ok { return; }
    ok := PutNext(ctx, Dht(0x00, 31, sp.dcLuma), segs, 4);
    if !ok { return; }
    ok := PutNext(ctx, Dht(0x10, 181, sp.acLuma), segs, 5);
    if !ok { return; }
    ok := PutNext(ctx, Dht(0x01, 31, sp.dcChroma), segs, 6);
    if !ok { return; }
    ok := PutNext(ctx, Dht(0x11, 181, sp.acChroma), segs, 7);
    if !ok { return; }
    ok := PutNext(ctx, Sos(), segs, 8);
  }

  // ---- Blocks ------------------------------------------------------------------------

  /** `t6_jpeg_encode_block`: transform, then the entropy coder; `dc` is the new prediction. */
  method EncodeBlock(ctx: JpegCtx, block: array<int>, recip: seq<nat>, dcTable: HuffTable, acTable: HuffTable,
                     prevDc: Coeff, ghost s: Samples, ghost qt: seq<Step>)
    returns (ok: bool, dc: Coeff)
    requires ctx.Valid() && dcTable.Fits() && acTable.Fits()
    requires |qt| == 64 && block.Length == 64 && block[..] == s && recip == Recips(qt)
    modifies ctx, ctx.dst
    ensures ctx.head == old(ctx.head) && dc == Zig(Coeffs(s, qt))[0]
    ensures ctx.bits == old(ctx.bits) + BlockBits(CoderOf(dcTable), CoderOf(acTable), Zig(Coeffs(s, qt)), prevDc)
    ensures if ok then ctx.Valid() else ctx.Overrun()
  {
    var coeffs := new Coeff[64];
    FdctQuantize(block, recip, coeffs, s, qt);
    ok := EncodeCoeffs(ctx, coeffs[..], dcTable, acTable, prevDc);
    dc := coeffs[0];
  }

  /** The predictions are quantised coefficients. */
  ghost predicate InCoeff(p: Preds) {
    forall k | 0 <= k < 3 :: -32767 <= p[k] <= 32767
  }

  /** The scan of some blocks, and the last DC of each component after them. */
  ghost function ScanOf(c: Coders, units: seq<Unit>): (seq<bool>, Preds) {
    (ScanBits(c, units, START), After(units, START))
  }

  /** A name for `ScanOf` under which the methods below see only where the scan has got to. */
  ghost predicate Traces(scan: seq<Unit> -> (seq<bool>, Preds), c: Coders) {
    forall u {:trigger ScanOf(c, u)} :: scan(u) == ScanOf(c, u)
  }

  /**
   * After coding towards the blocks `units`: the scan is exactly that of `got`. On success `got` is all of them and
   * `p` holds the last DC of each component; on failure it is the prefix whose scan no longer fits.
   */
  ghost predicate Reached(ctx: JpegCtx, scan: seq<Unit> -> (seq<bool>, Preds), got: seq<Unit>, units: seq<Unit>,
                          ok: bool, p: Preds)
    reads ctx, ctx.dst
  {
    if ok then ctx.Valid() && got == units && scan(got) == (ctx.bits, p) && InCoeff(p)
    else ctx.Overrun() && got <= units && scan(got).0 == ctx.bits
  }

  /** What stays fixed while a picture is encoded: the picture, its quantisers, reciprocals and tables. */
  datatype Plan = Plan(img: Image, ql: seq<Step>, qc: seq<Step>, dqLuma: seq<nat>, dqChroma: seq<nat>, t: Tables) {
    ghost predicate Valid() {
      img.Valid() && |ql| == |qc| == 64 && dqLuma == Recips(ql) && dqChroma == Recips(qc) && t.Fit()
    }

    function Tile(mx: nat, my: nat): seq<Unit>
      requires img.Valid() && |ql| == |qc| == 64
    {
      Mcu(img, ql, qc, mx, my)
    }

    function Row(my: nat, n: nat): seq<Unit>
      requires img.Valid() && |ql| == |qc| == 64
    {
      RowUnits(img, ql, qc, my, n)
    }

    function Rows(n: nat): seq<Unit>
      requires img.Valid() && |ql| == |qc| == 64
    {
      Units(img, ql, qc, n)
    }
  }

  lemma {:induction false} OneMore(scan: seq<Unit> -> (seq<bool>, Preds), c: Coders, done: seq<Unit>, u: Unit)
    requires Traces(scan, c)
    ensures var p, i := scan(done).1, u.comp;
      scan(done + [u]) == (scan(done).0 + BlockBits(c.Of(i).dc, c.Of(i).ac, u.zz, p[i]), p[i := u.zz[0]])
  {
    ScanAppend(c, done, u, START);
    assert ScanOf(c, done) == scan(done) && ScanOf(c, done + [u]) == scan(done + [u]);
  }

  method EncodeUnit(ctx: JpegCtx, block: array<int>, recip: seq<nat>, t: Tables, p: Preds, comp: Comp,
                    ghost done: seq<Unit>, ghost s: Samples, ghost qt: seq<Step>,
                    ghost scan: seq<Unit> -> (seq<bool>, Preds))
    returns (ok: bool, q: Preds)
    requires Traces(scan, t.C()) && Reached(ctx, scan, done, done, true, p) && t.Fit()
    requires |qt| == 64 && block.Length == 64 && block[..] == s && recip == Recips(qt)
    modifies ctx, ctx.dst
    ensures ctx.head == old(ctx.head)
    ensures var got := done + [Unit(comp, Zig(Coeffs(s, qt)))]; Reached(ctx, scan, got, got, ok, q)
  {
    var dc;
    ghost var u := Unit(comp, Zig(Coeffs(s, qt)));
    OneMore(scan, t.C(), done, u);
    var dcTable := if comp == 0 then t.dcLuma else t.dcChroma;
    var acTable := if comp == 0 then t.acLuma else t.acChroma;
    ok, dc := EncodeBlock(ctx, block, recip, dcTable, acTable, p[comp], s, qt);
    q := p[comp := dc];
  }

  method EncodeLuma(ctx: JpegCtx, plan: Plan, x: nat, y: nat, block: array<int>, p: Preds,
                    ghost done: seq<Unit>, ghost scan: seq<Unit> -> (seq<bool>, Preds))
    returns (ok: bool, q: Preds)
    requires plan.Valid() && Traces(scan, plan.t.C()) && Reached(ctx, scan, done, done, true, p)
    requires block.Length == 64 && block as object != ctx.dst
    modifies ctx, ctx.dst, block
    ensures ctx.head == old(ctx.head)
    ensures var got := done + [LumaUnit(plan.img, plan.ql, x, y)]; Reached(ctx, scan, got, got, ok, q)
  {
    LoadYBlock(plan.img, x, y, block);
    ok, q := EncodeUnit(ctx, block, plan.dqLuma, plan.t, p, 0, done, YBlock(plan.img, x, y), plan.ql, scan);
  }

  function Lumas(img: Image, ql: seq<Step>, x: nat, y: nat): seq<Unit>
    requires img.Valid() && |ql| == 64
  {
    [LumaUnit(img, ql, x, y), LumaUnit(img, ql, x + 8, y), LumaUnit(img, ql, x, y + 8), LumaUnit(img, ql, x + 8, y + 8)]
  }

  /** The four luma blocks of one MCU. */
  method EncodeLumas(ctx: JpegCtx, plan: Plan, x: nat, y: nat, p: Preds,
                     ghost done: seq<Unit>, ghost u: seq<Unit>, ghost scan: seq<Unit> -> (seq<bool>, Preds))
    returns (ok: bool, q: Preds, ghost got: seq<Unit>)
    requires plan.Valid() && Traces(scan, plan.t.C()) && Reached(ctx, scan, done, done, true, p)
    requires u == Lumas(plan.img, plan.ql, x, y)
    modifies ctx, ctx.dst
    ensures ctx.head == old(ctx.head) && Reached(ctx, scan, got, done + u, ok, q)
  {
    var block := new int[64];
    Four(done, u);
    got := done + [u[0]];
    ok, q := EncodeLuma(ctx, plan, x, y, block, p, done, scan);
    if !ok { return; }
    ok, q := EncodeLuma(ctx, plan, x + 8, y, block, q, got, scan);
    got := got + [u[1]];
    if !ok { return; }
    ok, q := EncodeLuma(ctx, plan, x, y + 8, block, q, got, scan);
    got := got + [u[2]];
    if !ok { return; }
    ok, q := EncodeLuma(ctx, plan, x + 8, y + 8, block, q, got, scan);
    got := got + [u[3]];
  }

  lemma {:induction false} Four(done: seq<Unit>, u: seq<Unit>)
    requires |u| == 4
    ensures done + [u[0]] <= done + u && done + [u[0]] + [u[1]] <= done + u
    ensures done + [u[0]] + [u[1]] + [u[2]] <= done + u
    ensures done + [u[0]] + [u[1]] + [u[2]] + [u[3]] == done + u
  {
  }

  lemma {:induction false} Prefix(a: seq<Unit>, b: seq<Unit>, c: seq<Unit>)
    requires a <= b <= c
    ensures a <= c
  {
  }

  method EncodeChroma(ctx: JpegCtx, plan: Plan, x: nat, y: nat, p: Preds,
                      ghost done: seq<Unit>, ghost u: seq<Unit>, ghost scan: seq<Unit> -> (seq<bool>, Preds))
    returns (ok: bool, q: Preds, ghost got: seq<Unit>)
    requires plan.Valid() && Traces(scan, plan.t.C()) && Reached(ctx, scan, done, done, true, p)
    requires u == [CbUnit(plan.img, plan.qc, x, y), CrUnit(plan.img, plan.qc, x, y)]
    modifies ctx, ctx.dst
    ensures ctx.head == old(ctx.head) && Reached(ctx, scan, got, done + u, ok, q)
  {
    var cb, cr := new int[64], new int[64];
    LoadChromaBlock(plan.img, x, y, cb, cr);
    got := done + [u[0]];
    ok, q := EncodeUnit(ctx, cb, plan.dqChroma, plan.t, p, 1, done, CbBlock(plan.img, x, y), plan.qc, scan);
    if !ok { return; }
    ok, q := EncodeUnit(ctx, cr, plan.dqChroma, plan.t, q, 2, got, CrBlock(plan.img, x, y), plan.qc, scan);
    got := got + [u[1]];
  }

  method EncodeMcu(ctx: JpegCtx, plan: Plan, mx: nat, my: nat, p: Preds,
                   ghost done: seq<Unit>, ghost scan: seq<Unit> -> (seq<bool>, Preds))
    returns (ok: bool, q: Preds, ghost got: seq<Unit>)
    requires plan.Valid() && Traces(scan, plan.t.C()) && Reached(ctx, scan, done, done, true, p)
    modifies ctx, ctx.dst
    ensures ctx.head == old(ctx.head) && Reached(ctx, scan, got, done + plan.Tile(mx, my), ok, q)
  {
    var x, y := mx * 16, my * 16;
    ghost var lumas := Lumas(plan.img, plan.ql, x, y);
    ghost var chromas := [CbUnit(plan.img, plan.qc, x, y), CrUnit(plan.img, plan.qc, x, y)];
    assert done + plan.Tile(mx, my) == done + lumas + chromas;
    ok, q, got := EncodeLumas(ctx, plan, x, y, p, done, lumas, scan);
    if !ok { return; }
    ok, q, got := EncodeChroma(ctx, plan, x, y, q, done + lumas, chromas, scan);
  }

  /** MCU `mx` of a row of `n`; a failure is one of the whole row. `goals` lists the blocks before each MCU. */
  method EncodeNextMcu(ctx: JpegCtx, plan: Plan, mx: nat, my: nat, n: nat, p: Preds,
                       ghost goals: nat -> seq<Unit>, ghost scan: seq<Unit> -> (seq<bool>, Preds))
    returns (ok: bool, q: Preds, ghost got: seq<Unit>)
    requires plan.Valid() && Traces(scan, plan.t.C()) && mx < n && RowGoals(plan, my, n, goals)
    requires Reached(ctx, scan, goals(mx), goals(mx), true, p)
    modifies ctx, ctx.dst
    ensures ctx.head == old(ctx.head) && Reached(ctx, scan, got, goals(if ok then mx + 1 else n), ok, q)
  {
    ok, q, got := EncodeMcu(ctx, plan, mx, my, p, goals(mx), scan);
    assert goals(mx + 1) == goals(mx) + plan.Tile(mx, my);
    if !ok {
      Prefix(got, goals(mx + 1), goals(n));
    }
  }

  ghost predicate RowGoals(plan: Plan, my: nat, n: nat, goals: nat -> seq<Unit>)
    requires plan.Valid()
  {
    forall k: nat {:trigger plan.Tile(k, my)} | k < n ::
      goals(k + 1) == goals(k) + plan.Tile(k, my) && goals(k + 1) <= goals(n)
  }

  /** One row of MCUs: the inner loop of the picture. */
  method EncodeRow(ctx: JpegCtx, plan: Plan, my: nat, p: Preds,
                   ghost goals: nat -> seq<Unit>, ghost scan: seq<Unit> -> (seq<bool>, Preds))
    returns (ok: bool, q: Preds, ghost got: seq<Unit>)
    requires plan.Valid() && Traces(scan, plan.t.C()) && RowGoals(plan, my, McusAcross(plan.img.width), goals)
    requires Reached(ctx, scan, goals(0), goals(0), true, p)
    modifies ctx, ctx.dst
    ensures ctx.head == old(ctx.head) && Reached(ctx, scan, got, goals(McusAcross(plan.img.width)), ok, q)
  {
    var n := McusAcross(plan.img.width);
    var mx := 0;
    ok, q, got := true, p, goals(0);
    while mx < n
      invariant mx <= n && ctx.head == old(ctx.head) && ok && got == goals(mx)
      invariant Reached(ctx, scan, got, got, true, q)
    {
      ok, q, got := EncodeNextMcu(ctx, plan, mx, my, n, q, goals, scan);
      if !ok { return; }
      mx := mx + 1;
    }
  }

  /** Row `my` of `n`; a failure is one of the whole picture. */
  method EncodeNextRow(ctx: JpegCtx, plan: Plan, my: nat, n: nat, p: Preds,
                       ghost rows: nat -> seq<Unit>, ghost scan: seq<Unit> -> (seq<bool>, Preds))
    returns (ok: bool, q: Preds, ghost got: seq<Unit>)
    requires plan.Valid() && Traces(scan, plan.t.C()) && my < n && PictureGoals(plan, rows)
    requires Reached(ctx, scan, rows(my), rows(my), true, p)
    modifies ctx, ctx.dst
    ensures ctx.head == old(ctx.head) && Reached(ctx, scan, got, rows(if ok then my + 1 else n), ok, q)
  {
    ghost var w := McusAcross(plan.img.width);
    ghost var goals := (k: nat) requires plan.Valid() => plan.Rows(my) + plan.Row(my, k);
    RowsReach(plan, my, w, n, goals);
    ok, q, got := EncodeRow(ctx, plan, my, p, goals, scan);
    if !ok {
      Prefix(got, goals(w), plan.Rows(n));
    }
  }

  ghost predicate PictureGoals(plan: Plan, rows: nat -> seq<Unit>)
    requires plan.Valid()
  {
    forall k: nat {:trigger plan.Rows(k)} :: rows(k) == plan.Rows(k)
  }

  /** All rows of MCUs. */
  method EncodePicture(ctx: JpegCtx, plan: Plan, ghost rows: nat -> seq<Unit>,
                      ghost scan: seq<Unit> -> (seq<bool>, Preds))
    returns (ok: bool, p: Preds, ghost got: seq<Unit>)
    requires plan.Valid() && Traces(scan, plan.t.C()) && PictureGoals(plan, rows)
    requires Reached(ctx, scan, rows(0), rows(0), true, START)
    modifies ctx, ctx.dst
    ensures ctx.head == old(ctx.head) && Reached(ctx, scan, got, rows(McusAcross(plan.img.height)), ok, p)
  {
    var n := McusAcross(plan.img.height);
    var my := 0;
    ok, p, got := true, START, rows(0);
    while my < n
      invariant my <= n && ctx.head == old(ctx.head) && ok && got == rows(my)
      invariant Reached(ctx, scan, got, got, true, p)
    {
      ok, p, got := EncodeNextRow(ctx, plan, my, n, p, rows, scan);
      if !ok { return; }
      my := my + 1;
    }
  }

  // ---- The blocks before each MCU and each row ---------------------------------------------

  lemma {:induction false} RowsReach(plan: Plan, my: nat, w: nat, n: nat, goals: nat -> seq<Unit>)
    requires plan.Valid() && my < n && w == McusAcross(plan.img.width)
    requires forall k: nat :: goals(k) == plan.Rows(my) + plan.Row(my, k)
    ensures RowGoals(plan, my, w, goals)
    ensures goals(0) == plan.Rows(my) && goals(w) == plan.Rows(my + 1) <= plan.Rows(n)
  {
    UnitsGrow(plan.img, plan.ql, plan.qc, my + 1, n);
    assert my + 1 - 1 == my;
    forall k: nat {:trigger plan.Tile(k, my)} | k < w
      ensures goals(k + 1) == goals(k) + plan.Tile(k, my) && goals(k + 1) <= goals(w)
    {
      RowStep(plan.img, plan.ql, plan.qc, my, k, w, plan.Rows(my));
    }
  }

  lemma {:induction false} RowStep(img: Image, ql: seq<Step>, qc: seq<Step>, my: nat, m: nat, n: nat, done: seq<Unit>)
    requires img.Valid() && |ql| == |qc| == 64 && m < n
    ensures done + RowUnits(img, ql, qc, my, m + 1) == done + RowUnits(img, ql, qc, my, m) + Mcu(img, ql, qc, m, my)
    ensures done + RowUnits(img, ql, qc, my, m + 1) <= done + RowUnits(img, ql, qc, my, n)
  {
    RowGrows(img, ql, qc, my, m + 1, n);
    assert m + 1 - 1 == m;
  }

  lemma {:induction false} RowGrows(img: Image, ql: seq<Step>, qc: seq<Step>, my: nat, m: nat, n: nat)
    requires img.Valid() && |ql| == |qc| == 64 && m <= n
    ensures RowUnits(img, ql, qc, my, m) <= RowUnits(img, ql, qc, my, n)
  {
    if m < n { RowGrows(img, ql, qc, my, m, n - 1); }
  }

  lemma {:induction false} UnitsGrow(img: Image, ql: seq<Step>, qc: seq<Step>, m: nat, n: nat)
    requires img.Valid() && |ql| == |qc| == 64 && m <= n
    ensures Units(img, ql, qc, m) <= Units(img, ql, qc, n)
  {
    if m < n { UnitsGrow(img, ql, qc, m, n - 1); }
  }

  // ---- The entry point -------------------------------------------------------------------

  /** A `size_t` returned through a C `int`. */
  function CInt(v: nat): int { (v + 0x8000_0000) % 0x1_0000_0000 - 0x8000_0000 }

  /** Flush and EOI, after a picture whose scan fitted. */
  method Finish(ctx: JpegCtx) returns (ok: bool)
    requires ctx.Valid()
    modifies ctx, ctx.dst
    ensures ctx.Bounded()
    ensures var file := old(ctx.head) + ScanBytes(old(ctx.bits)) + EOI;
            ok == (|file| <= ctx.dstSize) && (ok ==> ctx.Out() == file && !ctx.overflow)
  {
    ok := FlushScan(ctx);
    if ok {
      ok := ctx.PutBytes(EOI);
    }
  }

  lemma {:induction false} WholeScan(whole: seq<byte>, bits: seq<bool>)
    requires BytesBits(whole) == Pad(bits)
    ensures Stuff(whole) == ScanBytes(bits)
  {
    PackBits(whole);
  }

  method FlushScan(ctx: JpegCtx) returns (ok: bool)
    requires ctx.Valid()
    modifies ctx, ctx.dst
    ensures ctx.Bounded() && ctx.overflow == !ok
    ensures ok == (|old(ctx.head)| + |ScanBytes(old(ctx.bits))| <= ctx.dstSize)
    ensures ok ==> ctx.Out() == old(ctx.head) + ScanBytes(old(ctx.bits))
  {
    ghost var all := ctx.bits;
    ok := ctx.FlushBits();
    if ok {
      WholeScan(ctx.whole, all);
    } else {
      TooLongForAll(|ctx.head|, ctx.dstSize, ctx.bits, all);
    }
  }

  /** Tables first, then the stream. */
  method EncodeImage(sp: Specs, img: Image, quality: nat, dst: array<byte>, dstSize: nat) returns (ok: bool, pos: nat)
    requires sp.Valid() && img.Valid() && dstSize <= dst.Length
    modifies dst
    ensures var file := FileBytes(sp, img, quality);
      && ok == (|file| <= dstSize)
      && dst[dstSize..] == old(dst[dstSize..])
      && (ok ==> pos == |file| && dst[..pos] == file)
  {
    var qLuma, qChroma := new Step[64], new Step[64];
    var t := InitHuffTables(sp);
    BuildQtable(BaseTable(false), quality, qLuma);
    BuildQtable(BaseTable(true), quality, qChroma);
    var ql, qc := qLuma[..], qChroma[..];
    var dqLuma := PrecomputeQtable(ql);
    var dqChroma := PrecomputeQtable(qc);
    ok, pos := EncodeStream(sp, img, ql, qc, dqLuma[..], dqChroma[..], t, dst, dstSize);
  }

  /** The stream itself: headers, scan, flush and EOI. */
  method EncodeStream(sp: Specs, img: Image, ql: seq<Step>, qc: seq<Step>, dqLuma: seq<nat>, dqChroma: seq<nat>,
                      t: Tables, dst: array<byte>, dstSize: nat)
    returns (ok: bool, pos: nat)
    requires sp.Valid() && img.Valid() && |ql| == |qc| == 64 && t.Fit() && t.C() == EncoderCoders(sp)
    requires dqLuma == Recips(ql) && dqChroma == Recips(qc)
    requires dstSize <= dst.Length
    modifies dst
    ensures var file := Stream(sp, img, ql, qc);
      && ok == (|file| <= dstSize)
      && dst[dstSize..] == old(dst[dstSize..])
      && (ok ==> pos == |file| && dst[..pos] == file)
  {
    var ctx := new JpegCtx(dst, dstSize);
    ok := WriteHeaders(ctx, sp, img.width, img.height, ql, qc);
    if ok {
      ok := EncodeScan(ctx, img, dqLuma, dqChroma, t, ql, qc);
    }
    pos := ctx.pos;
  }

  /** The scan, flush and EOI after the headers. */
  method EncodeScan(ctx: JpegCtx, img: Image, dqLuma: seq<nat>, dqChroma: seq<nat>, t: Tables,
                    ql: seq<Step>, qc: seq<Step>)
    returns (ok: bool)
    requires ctx.Unscanned() && t.Fit() && img.Valid() && |ql| == |qc| == 64
    requires dqLuma == Recips(ql) && dqChroma == Recips(qc)
    modifies ctx, ctx.dst
    ensures ctx.Bounded()
    ensures var bits := ScanBits(t.C(), Units(img, ql, qc, McusAcross(img.height)), START);
            var file := old(ctx.Out()) + ScanBytes(bits) + EOI;
            ok == (|file| <= ctx.dstSize) && (ok ==> ctx.Out() == file)
  {
    var plan, n := Plan(img, ql, qc, dqLuma, dqChroma, t), McusAcross(img.height);
    ghost var rows := (k: nat) requires plan.Valid() => plan.Rows(k);
    ghost var scan := (u: seq<Unit>) => ScanOf(t.C(), u);
    var p;
    ghost var got;
    ctx.StartScan();
    ok, p, got := EncodePicture(ctx, plan, rows, scan);
    if ok {
      ok := Finish(ctx);
    } else {
      ghost var more := rows(n)[|got|..];
      assert got + more == rows(n);
      ScanGrows(t.C(), got, more, START);
      TooLongForAll(|ctx.head|, ctx.dstSize, ctx.bits, ScanBits(t.C(), rows(n), START));
    }
  }

  /** The arguments the encoder refuses; `width * 4` is computed in 32 bits. */
  predicate Refused(src: array?<byte>, width: nat, height: nat, stride: nat, dst: array?<byte>) {
    src == null || dst == null || width == 0 || height == 0 || stride < width * 4 % WORD
  }

  /** What a call with acceptable arguments leaves in the destination, and what it returns. */
  ghost predicate Outcome(file: seq<byte>, before: seq<byte>, after: seq<byte>, dstSize: nat, r: int) {
    && dstSize <= |before| == |after| && after[dstSize..] == before[dstSize..]
    && if |file| <= dstSize then r == CInt(|file|) && file <= after else r == -E2BIG
  }

  /**
   * The entry point (trigger6_codec.c:632-739), allocation failure aside, for any valid static tables. The caller owes
   * it readable rows: a row and the whole picture are below 4 GiB, and the picture does not overlap the destination.
   */
  method EncodeXrgb8888(sp: Specs, src: array?<byte>, width: nat, height: nat, stride: nat, quality: nat,
                        dst: array?<byte>, dstSize: nat) returns (r: int)
    requires sp.Valid() && width < WORD && height < WORD && stride < WORD
    requires !Refused(src, width, height, stride, dst) ==> Image(src[..], width, height, stride).Valid()
    requires dst != null ==> dst != src && dstSize <= dst.Length
    modifies dst
    ensures Refused(src, width, height, stride, dst) ==> r == -EINVAL && (dst != null ==> dst[..] == old(dst[..]))
    ensures !Refused(src, width, height, stride, dst) ==>
      Outcome(FileBytes(sp, Image(src[..], width, height, stride), quality), old(dst[..]), dst[..], dstSize, r)
  {
    if src == null || dst == null || width == 0 || height == 0 || stride < width * 4 % WORD {
      return -EINVAL;
    }
    var img := Image(src[..], width, height, stride);
    ghost var before := dst[..];
    var ok, pos := EncodeImage(sp, img, quality, dst, dstSize);
    r := if ok then CInt(pos) else -E2BIG;
    assert before[dstSize..] == dst[..][dstSize..];
    assert ok ==> dst[..][..pos] == dst[..pos];
  }

  /** End to end: with a buffer below 2 GiB, a call succeeds exactly when the file fits, and what it wrote decodes. */
  lemma {:induction false} OutcomeDecodes(sp: Specs, img: Image, quality: nat, before: seq<byte>, after: seq<byte>,
                                          dstSize: nat, r: int)
    requires sp.Valid() && img.Valid() && img.width < 0x1_0000 && img.height < 0x1_0000 && dstSize < 0x8000_0000
    requires Outcome(FileBytes(sp, img, quality), before, after, dstSize, r)
    ensures r >= 0 <==> |FileBytes(sp, img, quality)| <= dstSize
    ensures r >= 0 ==> r <= |after| && DecodeJpeg(after[..r]) == Some(Recovered(sp, img, quality))
  {
    FileRoundTrip(sp, img, quality);
    ReturnedLength(FileBytes(sp, img, quality), before, after, dstSize, r);
  }

  lemma {:induction false} ReturnedLength(file: seq<byte>, before: seq<byte>, after: seq<byte>, dstSize: nat, r: int)
    requires Outcome(file, before, after, dstSize, r) && dstSize < 0x8000_0000
    ensures r >= 0 <==> |file| <= dstSize
    ensures r >= 0 ==> r <= |after| && after[..r] == file
  {
    if |file| <= dstSize {
      assert r == |file|;
    }
  }
}
