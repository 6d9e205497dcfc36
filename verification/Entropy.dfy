/** Run-length and category coding of quantised blocks, and its decoder (T.81 sections F.1.2 and F.2.2). */
module Entropy {
  import opened Bits
  import opened Wrappers
  import opened Huffman
  import opened BitWriter
  import StandardTables

  // ---- Categories and additional bits -------------------------------------

  function Abs(v: int): nat { if v < 0 then -v else v }

  /** SSSS: the number of bits of a magnitude. */
  function Category(a: nat): nat {
    if a == 0 then 0 else 1 + Category(a / 2)
  }

  /** The additional bits of T.81 section F.1.2.1: negative values are sent less one. */
  function ValueCode(v: int): (c: nat)
    ensures c < Shl(1, Category(Abs(v)))
  {
    CategoryBounds(Abs(v));
    if v < 0 then v - 1 + Shl(1, Category(-v)) else v
  }

  /** EXTEND of T.81 Figure F.12. */
  function Extend(v: nat, t: nat): int {
    if t == 0 then 0 else if v < Shl(1, t - 1) then v - Shl(1, t) + 1 else v
  }

  lemma {:induction false} CategoryBounds(a: nat)
    ensures a < Shl(1, Category(a))
    ensures a > 0 ==> Category(a) > 0 && Shl(1, Category(a) - 1) <= a
  {
    if a > 0 { CategoryBounds(a / 2); }
  }

  lemma {:induction false} CategoryAtMost(a: nat, n: nat)
    requires a < Shl(1, n)
    ensures Category(a) <= n
  {
    if n > 0 { CategoryAtMost(a / 2, n - 1); }
  }

  lemma {:induction false} ExtendValueCode(v: int)
    ensures Extend(ValueCode(v), Category(Abs(v))) == v
  {
    CategoryBounds(Abs(v));
  }

  /** `t6_jpeg_value_bits` (trigger6_codec.c:306-328); the C `u16` holds any value of category at most 16. */
  method ValueBits(value: int) returns (size: nat, bits: nat)
    requires Abs(value) < 0x1_0000
    ensures size == Category(Abs(value)) <= 16
    ensures bits == ValueCode(value)
    ensures Extend(bits, size) == value
  {
    size := 0;
    ExtendValueCode(value);
    if value == 0 {
      return 0, 0;
    }
    var absValue := Abs(value);
    while absValue != 0
      invariant size + Category(absValue) == Category(Abs(value))
    {
      size := size + 1;
      absValue := absValue / 2;
    }
    DcSymbolFits(value);
    SmallShift(size);
    bits := (if value < 0 then value - 1 + Shl(1, size) else value) % 0x1_0000;
  }

  lemma {:induction false} SmallShift(n: nat)
    requires n <= 16
    ensures Shl(1, n) <= 0x1_0000
  {
    ShlShl(1, n, 16 - n);
    StandardTables.Powers();
  }

  // ---- One block -----------------------------------------------------------

  type Coeff = v: int | -32767 <= v <= 32767
  type ZigZag = z: seq<int> | |z| == 64 witness Repeat<Coeff>(0, 64)

  function Zeros(n: nat): (z: seq<int>)
    ensures |z| == n && forall i | 0 <= i < n :: z[i] == 0
  {
    seq(n, _ => 0)
  }

  /** A symbol code: how symbols are written and read. */
  datatype Coder = Coder(enc: nat -> seq<bool>, dec: seq<bool> -> Option<(nat, seq<bool>)>) {
    ghost predicate Inverts(s: nat) {
      forall rest: seq<bool> :: dec(enc(s) + rest) == Some((s, rest))
    }
  }

  /** The code of a Huffman table; a missing symbol writes nothing. */
  function CoderOf(t: HuffTable): Coder {
    Coder((s: nat) => if s < 256 then t.Code(s) else [], (bits: seq<bool>) => DecodeSym(t, bits))
  }

  /** Codes and additional bits for the remaining coefficients, after `run` zeros. */
  function AcBits(ac: Coder, z: seq<int>, run: nat): seq<bool>
    decreases |z|, run
  {
    if z == [] then if run > 0 then ac.enc(0x00) else []
    else if z[0] == 0 then AcBits(ac, z[1..], run + 1)
    else if run >= 16 then ac.enc(0xf0) + AcBits(ac, z, run - 16)
    else ac.enc(AcSymbol(z[0], run)) + Extra(z[0]) + AcBits(ac, z[1..], 0)
  }

  function AcSymbol(v: int, run: nat): nat { 16 * run + Category(Abs(v)) }

  function Extra(v: int): seq<bool> { BitsOf(ValueCode(v), Category(Abs(v))) }

  lemma {:induction false} AcSymbolFits(v: Coeff, run: nat)
    requires run < 16
    ensures Category(Abs(v)) <= 15 && AcSymbol(v, run) < 256
  {
    StandardTables.Powers();
    CategoryAtMost(Abs(v), 15);
  }

  lemma {:induction false} DcSymbolFits(v: int)
    requires Abs(v) < 0x1_0000
    ensures Category(Abs(v)) <= 16
  {
    StandardTables.Powers();
    CategoryAtMost(Abs(v), 16);
  }

  /** A block: coded DC difference, then the AC coefficients. */
  function BlockBits(dc: Coder, ac: Coder, zz: ZigZag, pred: int): seq<bool> {
    dc.enc(Category(Abs(zz[0] - pred))) + Extra(zz[0] - pred) + AcBits(ac, zz[1..], 0)
  }

  /** The zigzag sequence of T.81 Figure A.6. */
  function Zig(c: seq<Coeff>): ZigZag
    requires |c| == 64
  {
    seq(64, i requires 0 <= i < 64 => c[StandardTables.Zigzag(i)])
  }

  /** A symbol followed by the additional bits of `v`; a missing symbol has size 0 and writes nothing. */
  method PutCoded(ctx: JpegCtx, t: HuffTable, v: int, run: nat) returns (ok: bool)
    requires ctx.Valid() && t.Fits() && Abs(v) < 0x1_0000 && AcSymbol(v, run) < 256
    modifies ctx, ctx.dst
    ensures ctx.head == old(ctx.head)
    ensures if ok then ctx.Valid() else ctx.Overrun()
    ensures ctx.bits == old(ctx.bits) + (CoderOf(t).enc(AcSymbol(v, run)) + Extra(v))
  {
    var size, bits := ValueBits(v);
    var sym := 16 * run + size;
    ghost var code, extra := t.Code(sym), BitsOf(bits, size);
    assert ctx.bits + (code + extra) == ctx.bits + code + extra;
    ok := ctx.PutBits(t.codes[sym], t.sizes[sym]);
    if ok {
      ok := ctx.PutBits(bits, size);
    } else {
      ctx.Extend(extra);
    }
  }

  /** `t6_jpeg_encode_block` (trigger6_codec.c:396-452) after its call of the transform. */
  method EncodeCoeffs(ctx: JpegCtx, coeffs: seq<Coeff>, dcTable: HuffTable, acTable: HuffTable, prevDc: Coeff)
    returns (ok: bool)
    requires ctx.Valid() && dcTable.Fits() && acTable.Fits() && |coeffs| == 64
    modifies ctx, ctx.dst
    ensures ctx.head == old(ctx.head)
    ensures ctx.bits == old(ctx.bits) + BlockBits(CoderOf(dcTable), CoderOf(acTable), Zig(coeffs), prevDc)
    ensures if ok then ctx.Valid() else ctx.Overrun()
  {
    ghost var zz := Zig(coeffs);
    ghost var acs := AcBits(CoderOf(acTable), zz[1..], 0);
    var diff := coeffs[0] - prevDc;
    DcSymbolFits(diff);
    ghost var dcs := CoderOf(dcTable).enc(AcSymbol(diff, 0)) + Extra(diff);
    assert BlockBits(CoderOf(dcTable), CoderOf(acTable), zz, prevDc) == dcs + acs;
    assert ctx.bits + (dcs + acs) == ctx.bits + dcs + acs;
    ok := PutCoded(ctx, dcTable, diff, 0);
    if ok {
      ok := EncodeAc(ctx, coeffs, acTable);
    } else {
      ctx.Extend(acs);
    }
  }

  /** The AC loop of `t6_jpeg_encode_block`. */
  method EncodeAc(ctx: JpegCtx, coeffs: seq<Coeff>, acTable: HuffTable) returns (ok: bool)
    requires ctx.Valid() && acTable.Fits() && |coeffs| == 64
    modifies ctx, ctx.dst
    ensures ctx.head == old(ctx.head)
    ensures ctx.bits == old(ctx.bits) + AcBits(CoderOf(acTable), Zig(coeffs)[1..], 0)
    ensures if ok then ctx.Valid() else ctx.Overrun()
  {
    ghost var zz, ac := Zig(coeffs), CoderOf(acTable);
    ghost var goal := ctx.bits + AcBits(ac, zz[1..], 0);
    var zeroRun := 0;
    var i := 1;
    ok := true;
    while i < 64
      invariant 1 <= i <= 64
      invariant ctx.Valid() && ctx.head == old(ctx.head)
      invariant ctx.bits + AcBits(ac, zz[i..], zeroRun) == goal
    {
      var coeff := coeffs[StandardTables.Zigzag(i)];
      assert zz[i..][0] == coeff && zz[i..][1..] == zz[i + 1..];
      if coeff == 0 {
        zeroRun := zeroRun + 1;
      } else {
        ok, zeroRun := PutZrls(ctx, acTable, zz[i..], zeroRun);
        if !ok { return; }
        ghost var later := AcBits(ac, zz[i + 1..], 0);
        AcSymbolFits(coeff, zeroRun);
        assert goal == ctx.bits + (ac.enc(AcSymbol(coeff, zeroRun)) + Extra(coeff)) + later;
        ok := PutCoded(ctx, acTable, coeff, zeroRun);
        if !ok {
          ctx.Extend(later);
          return;
        }
        zeroRun := 0;
      }
      i := i + 1;
    }
    assert zz[i..] == [];
    if zeroRun > 0 {
      ok := ctx.PutBits(acTable.codes[0x00], acTable.sizes[0x00]);
    }
  }

  /** The ZRL loop before a coefficient; on failure the rest of the block is recorded as lost. */
  method PutZrls(ctx: JpegCtx, acTable: HuffTable, ghost z: seq<int>, run: nat) returns (ok: bool, zeroRun: nat)
    requires ctx.Valid() && acTable.Fits() && z != [] && z[0] != 0
    modifies ctx, ctx.dst
    ensures ctx.head == old(ctx.head)
    ensures ok ==> ctx.Valid() && zeroRun < 16
    ensures ok ==> ctx.bits + AcBits(CoderOf(acTable), z, zeroRun) == old(ctx.bits) + AcBits(CoderOf(acTable), z, run)
    ensures !ok ==> ctx.Overrun() && ctx.bits == old(ctx.bits) + AcBits(CoderOf(acTable), z, run)
  {
    ghost var ac := CoderOf(acTable);
    ghost var goal := ctx.bits + AcBits(ac, z, run);
    zeroRun := run;
    while zeroRun >= 16
      invariant ctx.Valid() && ctx.head == old(ctx.head)
      invariant ctx.bits + AcBits(ac, z, zeroRun) == goal
    {
      ghost var later := AcBits(ac, z, zeroRun - 16);
      Assoc(ctx.bits, ac.enc(0xf0), later);
      ok := ctx.PutBits(acTable.codes[0xf0], acTable.sizes[0xf0]);
      if !ok {
        ctx.Extend(later);
        return;
      }
      zeroRun := zeroRun - 16;
    }
    ok := true;
  }

  // ---- Decoding --------------------------------------------------------------

  function Receive(bits: seq<bool>, n: nat): Option<(nat, seq<bool>)> {
    if n > |bits| then None else Some((ValueOf(bits[..n]), bits[n..]))
  }

  /** The value EXTEND makes of the next `n` bits. */
  function ReceiveExtend(bits: seq<bool>, n: nat): Option<(int, seq<bool>)> {
    match Receive(bits, n)
    case None => None
    case Some((v, rest)) => Some((Extend(v, n), rest))
  }

  /** T.81 Figure F.13: `acc` holds the AC coefficients found so far. */
  function DecodeAc(ac: Coder, bits: seq<bool>, acc: seq<int>): Option<(seq<int>, seq<bool>)>
    requires |acc| <= 63
    decreases 63 - |acc|
  {
    if |acc| == 63 then Some((acc, bits))
    else match ac.dec(bits)
      case None => None
      case Some((sym, rest)) =>
        var r, s := sym / 16, sym % 16;
        if s == 0 then
          if r != 15 then Some((acc + Zeros(63 - |acc|), rest))
          else if |acc| + 16 > 63 then None
          else DecodeAc(ac, rest, acc + Zeros(16))
        else if |acc| + r + 1 > 63 then None
        else match ReceiveExtend(rest, s)
          case None => None
          case Some((v, rest')) => DecodeAc(ac, rest', acc + Zeros(r) + [v])
  }

  /** T.81 sections F.2.2.1 and F.2.2.2. */
  function DecodeBlock(dc: Coder, ac: Coder, bits: seq<bool>, pred: int): Option<(seq<int>, seq<bool>)> {
    match dc.dec(bits)
    case None => None
    case Some((size, rest)) =>
      match ReceiveExtend(rest, size)
      case None => None
      case Some((diff, rest')) =>
        match DecodeAc(ac, rest', [])
        case None => None
        case Some((acs, rest'')) => Some(([pred + diff] + acs, rest''))
  }

  // ---- Round trip ------------------------------------------------------------

  /** A code the block coder can use for AC coefficients of category at most 10. */
  ghost predicate AcReady(ac: Coder) {
    && ac.Inverts(0x00) && ac.Inverts(0xf0)
    && forall r: nat, s: nat | r < 16 && 1 <= s <= 10 :: ac.Inverts(StandardTables.Sym(r, s))
  }

  /** A code for DC differences of category at most 11. */
  ghost predicate DcReady(dc: Coder) {
    forall s: nat | s <= 11 :: dc.Inverts(s)
  }

  /** What the tables of Annex K can code. */
  ghost predicate Encodable(zz: ZigZag, pred: int) {
    && Category(Abs(zz[0] - pred)) <= 11
    && forall i | 1 <= i < 64 :: Category(Abs(zz[i])) <= 10
  }

  lemma {:induction false} ReceiveExtra(v: int, rest: seq<bool>)
    ensures ReceiveExtend(Extra(v) + rest, Category(Abs(v))) == Some((v, rest))
  {
    var n := Category(Abs(v));
    assert (Extra(v) + rest)[..n] == Extra(v) && (Extra(v) + rest)[n..] == rest;
    ValueOfBitsOf(ValueCode(v), n);
    ExtendValueCode(v);
  }

  lemma {:induction false} DecodeEob(ac: Coder, rest: seq<bool>, acc: seq<int>)
    requires ac.Inverts(0x00) && |acc| < 63
    ensures DecodeAc(ac, ac.enc(0x00) + rest, acc) == Some((acc + Zeros(63 - |acc|), rest))
  {
    assert ac.dec(ac.enc(0x00) + rest) == Some((0x00, rest));
  }

  lemma {:induction false} DecodeZrl(ac: Coder, later: seq<bool>, acc: seq<int>)
    requires ac.Inverts(0xf0) && |acc| + 16 <= 63
    ensures DecodeAc(ac, ac.enc(0xf0) + later, acc) == DecodeAc(ac, later, acc + Zeros(16))
  {
    assert ac.dec(ac.enc(0xf0) + later) == Some((0xf0, later));
  }

  lemma {:induction false} DecodeCoeff(ac: Coder, v: int, run: nat, later: seq<bool>, acc: seq<int>)
    requires AcReady(ac) && v != 0 && run < 16 && Category(Abs(v)) <= 10 && |acc| + run + 1 <= 63
    ensures DecodeAc(ac, ac.enc(AcSymbol(v, run)) + Extra(v) + later, acc) ==
            DecodeAc(ac, later, acc + Zeros(run) + [v])
  {
    var sym := AcSymbol(v, run);
    CategoryBounds(Abs(v));
    assert ac.Inverts(StandardTables.Sym(run, Category(Abs(v))));
    assert sym / 16 == run && sym % 16 == Category(Abs(v));
    assert ac.enc(sym) + Extra(v) + later == ac.enc(sym) + (Extra(v) + later);
    assert ac.dec(ac.enc(sym) + (Extra(v) + later)) == Some((sym, Extra(v) + later));
    ReceiveExtra(v, later);
  }

  /** What decoding the rest of a block must give: the pending zeros, then `z`. */
  ghost predicate DecodesTo(ac: Coder, bits: seq<bool>, acc: seq<int>, run: nat, z: seq<int>, rest: seq<bool>) {
    |acc| <= 63 && DecodeAc(ac, bits, acc) == Some((acc + (Zeros(run) + z), rest))
  }

  lemma {:induction false} ZrlCase(ac: Coder, z: seq<int>, run: nat, acc: seq<int>, rest: seq<bool>)
    requires ac.Inverts(0xf0) && z != [] && z[0] != 0 && run >= 16
    requires DecodesTo(ac, AcBits(ac, z, run - 16) + rest, acc + Zeros(16), run - 16, z, rest)
    ensures DecodesTo(ac, AcBits(ac, z, run) + rest, acc, run, z, rest)
  {
    var later := AcBits(ac, z, run - 16) + rest;
    assert AcBits(ac, z, run) + rest == ac.enc(0xf0) + later;
    DecodeZrl(ac, later, acc);
    assert acc + Zeros(16) + (Zeros(run - 16) + z) == acc + (Zeros(run) + z);
  }

  lemma {:induction false} CoeffCase(ac: Coder, z: seq<int>, run: nat, acc: seq<int>, rest: seq<bool>)
    requires AcReady(ac) && z != [] && z[0] != 0 && run < 16 && Category(Abs(z[0])) <= 10
    requires DecodesTo(ac, AcBits(ac, z[1..], 0) + rest, acc + Zeros(run) + [z[0]], 0, z[1..], rest)
    ensures DecodesTo(ac, AcBits(ac, z, run) + rest, acc, run, z, rest)
  {
    var later := AcBits(ac, z[1..], 0);
    DecodeCoeff(ac, z[0], run, later + rest, acc);
    Assoc(ac.enc(AcSymbol(z[0], run)) + Extra(z[0]), later, rest);
    JoinCoeff(acc, run, z);
  }

  lemma {:induction false} JoinCoeff(acc: seq<int>, run: nat, z: seq<int>)
    requires z != []
    ensures acc + Zeros(run) + [z[0]] + (Zeros(0) + z[1..]) == acc + (Zeros(run) + z)
  {
  }

  lemma {:induction false} EndCase(ac: Coder, run: nat, acc: seq<int>, rest: seq<bool>)
    requires ac.Inverts(0x00) && |acc| + run == 63
    ensures DecodesTo(ac, AcBits(ac, [], run) + rest, acc, run, [], rest)
  {
    var none: seq<int> := [];
    assert Zeros(run) + none == Zeros(63 - |acc|);
    if run > 0 {
      DecodeEob(ac, rest, acc);
    } else {
      assert AcBits(ac, none, run) + rest == rest && acc + Zeros(0) == acc;
    }
  }

  lemma {:induction false} AcRoundTrip(ac: Coder, z: seq<int>, run: nat, acc: seq<int>, rest: seq<bool>)
    requires AcReady(ac) && |acc| + run + |z| == 63
    requires forall i | 0 <= i < |z| :: Category(Abs(z[i])) <= 10
    ensures DecodesTo(ac, AcBits(ac, z, run) + rest, acc, run, z, rest)
    decreases |z|, run
  {
    if z == [] {
      EndCase(ac, run, acc, rest);
    } else if z[0] == 0 {
      AcRoundTrip(ac, z[1..], run + 1, acc, rest);
      assert Zeros(run + 1) + z[1..] == Zeros(run) + z;
    } else if run >= 16 {
      AcRoundTrip(ac, z, run - 16, acc + Zeros(16), rest);
      ZrlCase(ac, z, run, acc, rest);
    } else {
      AcRoundTrip(ac, z[1..], 0, acc + Zeros(run) + [z[0]], rest);
      CoeffCase(ac, z, run, acc, rest);
    }
  }

  /** Decoding an encoded block gives its coefficients and leaves what follows. */
  lemma {:induction false} BlockRoundTrip(dc: Coder, ac: Coder, zz: ZigZag, pred: int, rest: seq<bool>)
    requires DcReady(dc) && AcReady(ac) && Encodable(zz, pred)
    ensures DecodeBlock(dc, ac, BlockBits(dc, ac, zz, pred) + rest, pred) == Some((zz, rest))
  {
    var diff, size := zz[0] - pred, Category(Abs(zz[0] - pred));
    var later := AcBits(ac, zz[1..], 0) + rest;
    assert dc.Inverts(size);
    assert BlockBits(dc, ac, zz, pred) + rest == dc.enc(size) + (Extra(diff) + later);
    assert dc.dec(dc.enc(size) + (Extra(diff) + later)) == Some((size, Extra(diff) + later));
    ReceiveExtra(diff, later);
    AcRoundTrip(ac, zz[1..], 0, [], rest);
    var none: seq<int> := [];
    assert none + (Zeros(0) + zz[1..]) == zz[1..];
    assert [pred + diff] + zz[1..] == zz;
  }

  /** A prefix-free table decodes each of its symbols. */
  lemma {:induction false} TableInverts(t: HuffTable, s: nat)
    requires t.PrefixFree() && s < 256 && t.Has(s)
    ensures CoderOf(t).Inverts(s)
  {
    forall rest: seq<bool> ensures CoderOf(t).dec(CoderOf(t).enc(s) + rest) == Some((s, rest)) {
      DecodeCode(t, s, rest);
    }
  }
}
