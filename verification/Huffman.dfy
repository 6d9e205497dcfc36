/** Canonical Huffman tables: ITU-T T.81 Annex C construction and section F.2.2.3 decoding. */
module Huffman {
  import opened Bits
  import opened Wrappers

  /** `struct t6_jpeg_huff_table` as a value: 256 codes and sizes; size 0 means "no such symbol". */
  datatype Table = Table(codes: seq<nat>, sizes: seq<nat>) {
    ghost predicate Valid() {
      |codes| == 256 && |sizes| == 256 && forall s: nat | s < 256 :: sizes[s] <= 16
    }

    predicate Has(s: nat) { s < |sizes| && sizes[s] > 0 }

    function Code(s: nat): seq<bool>
      requires s < |codes| && s < |sizes|
    {
      BitsOf(codes[s], sizes[s])
    }

    /** Every code fits the size given for it. */
    ghost predicate Fits()
      requires Valid()
    {
      forall s: nat | s < 256 :: codes[s] < Shl(1, sizes[s])
    }

    ghost predicate PrefixFree()
      requires Valid()
    {
      forall a: nat, b: nat | a < 256 && b < 256 && a != b && Has(a) && Has(b) && sizes[a] <= sizes[b] ::
        Code(b)[..sizes[a]] != Code(a)
    }
  }

  type HuffTable = t: Table | t.Valid() witness Table(Repeat(0, 256), Repeat(0, 256))

  // ---- Length histogram -------------------------------------------------

  type Len = n: int | 1 <= n <= 16 witness 1

  /** HUFFSIZE of T.81 Figure C.1 for the lengths below `len`: `bits[l]` entries for each length l. */
  function LensBelow(bits: seq<byte>, len: nat): (r: seq<Len>)
    requires len <= |bits| <= 17
    ensures forall i | 0 <= i < |r| :: r[i] < len
  {
    if len <= 1 then [] else LensBelow(bits, len - 1) + Repeat<Len>(len - 1, bits[len - 1])
  }

  /** The code length of every symbol, in order. */
  function Lens(bits: seq<byte>): seq<Len>
    requires |bits| == 17
  {
    LensBelow(bits, |bits|)
  }

  ghost predicate Sorted(lens: seq<Len>) {
    forall i, j | 0 <= i < j < |lens| :: lens[i] <= lens[j]
  }

  /** How far a code of length `l` sits above the bottom of the 16-bit code space. */
  function Room(l: nat): nat
    requires l <= 16
  {
    16 - l
  }

  /** Total share of the 16-bit code space taken by the first `k` codes (a scaled Kraft sum). */
  function Base(lens: seq<Len>, k: nat): nat
    requires k <= |lens|
  {
    if k == 0 then 0 else Base(lens, k - 1) + Shl(1, Room(lens[k - 1]))
  }

  ghost predicate Distinct(vals: seq<byte>) {
    forall i, j | 0 <= i < j < |vals| :: vals[i] != vals[j]
  }

  /** What `t6_jpeg_build_huff` needs of its static arguments: Kraft sum at most 1, distinct symbols. */
  ghost predicate Histogram(bits: seq<byte>, vals: seq<byte>) {
    && |bits| == 17
    && |vals| == |Lens(bits)|
    && Distinct(vals)
    && Base(Lens(bits), |vals|) <= 0x1_0000
  }

  function IndexOf(vals: seq<byte>, s: nat): (k: nat)
    requires s in vals
    ensures k < |vals| && vals[k] == s
  {
    if vals[0] == s then 0 else 1 + IndexOf(vals[1..], s)
  }

  function SizeOf(lens: seq<Len>, vals: seq<byte>, s: nat): (l: nat)
    requires |vals| == |lens|
    ensures l <= 16
  {
    if s in vals then lens[IndexOf(vals, s)] else 0
  }

  /** In closed form: the number of slots of the symbol's own width to the left of it. */
  function CodeOf(lens: seq<Len>, vals: seq<byte>, s: nat): nat
    requires |vals| == |lens|
  {
    if s in vals then var k := IndexOf(vals, s); Shr(Base(lens, k), Room(lens[k])) else 0
  }

  /** The table of T.81 Annex C for a histogram and its symbols. */
  function TableOf(bits: seq<byte>, vals: seq<byte>): HuffTable
    requires |bits| == 17 && |vals| == |Lens(bits)|
  {
    var lens := Lens(bits);
    Table(seq(256, s requires 0 <= s < 256 => CodeOf(lens, vals, s)),
          seq(256, s requires 0 <= s < 256 => SizeOf(lens, vals, s)))
  }

  // ---- Construction loop (trigger6_codec.c:232-256) ---------------------

  method BuildHuff(codes: array<nat>, sizes: array<nat>, bits: seq<byte>, vals: seq<byte>)
    requires codes != sizes && codes.Length == 256 && sizes.Length == 256
    requires Histogram(bits, vals)
    modifies codes, sizes
    ensures Table(codes[..], sizes[..]) == TableOf(bits, vals)
  {
    var code: nat, len: nat, pos: nat := 0, 1, 0;
    ghost var lens := Lens(bits);
    Clear(codes, sizes, lens, vals);
    while len <= 16
      invariant 1 <= len <= 17 && pos <= |lens|
      invariant pos == |LensBelow(bits, len)|
      invariant len <= 16 ==> CodeAt(lens, pos, len, code)
      invariant Filled(codes[..], sizes[..], lens, vals, pos)
    {
      pos, code := FillLength(codes, sizes, bits, vals, len, pos, code);
      if len < 16 { NextLength(lens, pos, len, code); }
      code := (code * 2) % 0x1_0000;
      len := len + 1;
    }
    assert pos == |vals|;
    FilledAll(codes[..], sizes[..], bits, vals);
  }

  /** The inner loop: the codes of one length. */
  method FillLength(codes: array<nat>, sizes: array<nat>, bits: seq<byte>, vals: seq<byte>, len: nat, start: nat,
                    first: nat)
      returns (pos: nat, code: nat)
    requires codes != sizes && codes.Length == 256 && sizes.Length == 256 && Histogram(bits, vals)
    requires 1 <= len <= 16 && start == |LensBelow(bits, len)| <= |vals|
    requires CodeAt(Lens(bits), start, len, first) && Filled(codes[..], sizes[..], Lens(bits), vals, start)
    modifies codes, sizes
    ensures pos == |LensBelow(bits, len + 1)| <= |vals|
    ensures CodeAt(Lens(bits), pos, len, code) && Filled(codes[..], sizes[..], Lens(bits), vals, pos)
  {
    ghost var lens := Lens(bits);
    var count, i := bits[len], 0;
    pos, code := start, first;
    LensBlock(bits, len);
    while i < count && pos < |vals|
      invariant 0 <= i <= count && pos + (count - i) == |LensBelow(bits, len + 1)| <= |lens|
      invariant CodeAt(lens, pos, len, code)
      invariant Filled(codes[..], sizes[..], lens, vals, pos)
    {
      NextCode(lens, pos, code);
      SetEntry(codes, sizes, code, len, vals, pos, lens);
      pos := pos + 1;
      code := (code + 1) % 0x1_0000;
      i := i + 1;
    }
  }

  /** The `memset` before the loops. */
  method Clear(codes: array<nat>, sizes: array<nat>, ghost lens: seq<Len>, ghost vals: seq<byte>)
    requires codes != sizes && codes.Length == 256 && sizes.Length == 256 && |lens| == |vals|
    modifies codes, sizes
    ensures CodeAt(lens, 0, 1, 0) && Filled(codes[..], sizes[..], lens, vals, 0)
  {
    forall s | 0 <= s < 256 { codes[s] := 0; }
    forall s | 0 <= s < 256 { sizes[s] := 0; }
    ShlAdd(0, 0, Room(1));
  }

  /** The two stores of the inner loop. */
  method SetEntry(codes: array<nat>, sizes: array<nat>, code: nat, len: nat, vals: seq<byte>, pos: nat,
                  ghost lens: seq<Len>)
    requires codes != sizes && codes.Length == 256 && sizes.Length == 256 && Distinct(vals)
    requires Filled(codes[..], sizes[..], lens, vals, pos) && pos < |vals|
    requires len == lens[pos] && Shl(code, Room(lens[pos])) == Base(lens, pos)
    modifies codes, sizes
    ensures Filled(codes[..], sizes[..], lens, vals, pos + 1)
  {
    NextEntry(codes[..], sizes[..], lens, vals, pos, code);
    codes[vals[pos]] := code;
    sizes[vals[pos]] := len;
    assert codes[..] == old(codes[..])[vals[pos] := code] && sizes[..] == old(sizes[..])[vals[pos] := len];
  }

  /** The codes of length `len` follow all the shorter ones. */
  lemma {:induction false} LensBlock(bits: seq<byte>, len: nat)
    requires |bits| == 17 && 1 <= len <= 16
    ensures var start := |LensBelow(bits, len)|;
      && start + bits[len] == |LensBelow(bits, len + 1)| <= |Lens(bits)|
      && forall j | start <= j < start + bits[len] :: Lens(bits)[j] == len
  {
    LensPrefix(bits, len + 1, |bits|);
    var upTo := LensBelow(bits, len + 1);
    assert Lens(bits)[..|upTo|] == upTo;
  }

  lemma {:induction false} LensPrefix(bits: seq<byte>, m: nat, n: nat)
    requires m <= n <= |bits| <= 17
    ensures LensBelow(bits, m) <= LensBelow(bits, n)
  {
    if m < n { LensPrefix(bits, m, n - 1); }
  }

  lemma {:induction false} LensSorted(bits: seq<byte>, n: nat)
    requires n <= |bits| <= 17
    ensures Sorted(LensBelow(bits, n))
  {
    if n > 1 { LensSorted(bits, n - 1); }
  }

  /** `code`, the next code of length `len`, sits at the left end of the unused code space. */
  ghost predicate CodeAt(lens: seq<Len>, pos: nat, len: nat, code: nat)
    requires pos <= |lens| && len <= 16
  {
    Base(lens, pos) < 0x1_0000 ==> Shl(code, Room(len)) == Base(lens, pos)
  }

  lemma {:induction false} NextCode(lens: seq<Len>, pos: nat, code: nat)
    requires pos < |lens| && Base(lens, |lens|) <= 0x1_0000
    requires CodeAt(lens, pos, lens[pos], code)
    ensures Shl(code, Room(lens[pos])) == Base(lens, pos)
    ensures CodeAt(lens, pos + 1, lens[pos], (code + 1) % 0x1_0000)
  {
    BaseMono(lens, pos + 1, |lens|);
    ShlAdd(code, 1, Room(lens[pos]));
    assert Base(lens, pos + 1) == Shl(code + 1, Room(lens[pos]));
    if Base(lens, pos + 1) < 0x1_0000 { SmallMod(code + 1); }
  }

  lemma {:induction false} NextLength(lens: seq<Len>, pos: nat, len: nat, code: nat)
    requires pos <= |lens| && len < 16
    requires CodeAt(lens, pos, len, code)
    ensures CodeAt(lens, pos, len + 1, (code * 2) % 0x1_0000)
  {
    ShlShl(code, 1, Room(len + 1));
    ShlOnce(code);
    if Base(lens, pos) < 0x1_0000 { SmallMod(code * 2); }
  }

  lemma {:induction false} ShlOnce(code: nat)
    ensures Shl(code, 1) == code * 2
  {
    assert Shl(code, 0) == code;
  }

  lemma {:induction false} SmallMod(x: nat)
    requires x < 0x1_0000
    ensures x % 0x1_0000 == x
  {
  }

  /** The first `pos` symbols, and no others, have their canonical entries. */
  ghost predicate Filled(codes: seq<nat>, sizes: seq<nat>, lens: seq<Len>, vals: seq<byte>, pos: nat) {
    && |codes| == 256 && |sizes| == 256 && pos <= |lens| == |vals|
    && (forall k | 0 <= k < pos :: Entry(codes, sizes, lens, vals, k))
    && (forall s: byte | s !in vals[..pos] :: sizes[s] == 0 && codes[s] == 0)
  }

  ghost predicate Entry(codes: seq<nat>, sizes: seq<nat>, lens: seq<Len>, vals: seq<byte>, k: nat)
    requires |codes| == 256 && |sizes| == 256 && k < |lens| == |vals|
  {
    sizes[vals[k]] == lens[k] && Shl(codes[vals[k]], Room(lens[k])) == Base(lens, k)
  }

  lemma {:induction false} NextEntry(codes: seq<nat>, sizes: seq<nat>, lens: seq<Len>, vals: seq<byte>, pos: nat,
                                     code: nat)
    requires Filled(codes, sizes, lens, vals, pos) && pos < |vals| && Distinct(vals)
    requires Shl(code, Room(lens[pos])) == Base(lens, pos)
    ensures Filled(codes[vals[pos] := code], sizes[vals[pos] := lens[pos]], lens, vals, pos + 1)
  {
    var codes', sizes' := codes[vals[pos] := code], sizes[vals[pos] := lens[pos]];
    assert vals[..pos + 1] == vals[..pos] + [vals[pos]];
    forall k | 0 <= k < pos + 1 ensures Entry(codes', sizes', lens, vals, k) {
      if k < pos { assert Entry(codes, sizes, lens, vals, k); }
    }
  }

  lemma {:induction false} FilledAll(codes: seq<nat>, sizes: seq<nat>, bits: seq<byte>, vals: seq<byte>)
    requires Histogram(bits, vals)
    requires Filled(codes, sizes, Lens(bits), vals, |vals|)
    ensures Table(codes, sizes) == TableOf(bits, vals)
  {
    var t, lens := TableOf(bits, vals), Lens(bits);
    assert vals[..|vals|] == vals;
    forall s: byte ensures codes[s] == t.codes[s] && sizes[s] == t.sizes[s] {
      if s in vals {
        var k := IndexOf(vals, s);
        assert Entry(codes, sizes, lens, vals, k);
        ShrShl(codes[s], Room(lens[k]));
      }
    }
    assert codes == t.codes && sizes == t.sizes;
  }

  lemma {:induction false} BaseMono(lens: seq<Len>, j: nat, k: nat)
    requires j <= k <= |lens|
    ensures Base(lens, j) <= Base(lens, k)
  {
    if j < k { BaseMono(lens, j, k - 1); }
  }

  // ---- Properties of canonical codes ------------------------------------

  /** Widths only shrink, so every left end is a whole number of slots of the next length. */
  lemma {:induction false} BaseDivisible(lens: seq<Len>, k: nat, l: nat) returns (q: nat)
    requires k <= |lens| && l <= 16
    requires forall j | 0 <= j < k :: lens[j] <= l
    ensures Base(lens, k) == Shl(q, Room(l))
  {
    if k == 0 {
      q := 0;
      ShlAdd(0, 0, Room(l));
    } else {
      var q0 := BaseDivisible(lens, k - 1, l);
      var g := l - lens[k - 1];
      ShlShl(1, g, Room(l));
      q := q0 + Shl(1, g);
      ShlAdd(q0, Shl(1, g), Room(l));
    }
  }

  /** Each code fits its length and occupies its own slice of the code space. */
  lemma {:induction false} CodeInterval(bits: seq<byte>, vals: seq<byte>, k: nat)
    requires Histogram(bits, vals) && k < |vals|
    ensures var t, lens := TableOf(bits, vals), Lens(bits);
      && t.sizes[vals[k]] == lens[k]
      && Shl(t.codes[vals[k]], Room(lens[k])) == Base(lens, k)
      && t.codes[vals[k]] < Shl(1, lens[k])
  {
    var t, lens := TableOf(bits, vals), Lens(bits);
    assert IndexOf(vals, vals[k]) == k;
    LensSorted(bits, |bits|);
    var q := BaseDivisible(lens, k, lens[k]);
    ShrShl(q, Room(lens[k]));
    BaseMono(lens, k + 1, |lens|);
    if Shl(1, lens[k]) <= q {
      CodeSpace(lens[k]);
      if Shl(1, lens[k]) < q { ShlGap(Shl(1, lens[k]), q, Room(lens[k])); }
    }
  }

  lemma {:induction false} CodeSpace(l: nat)
    requires l <= 16
    ensures Shl(Shl(1, l), Room(l)) == 0x1_0000
  {
    ShlShl(1, l, 16 - l);
    assert Shl(1, 5) == 32 && Shl(1, 10) == 0x400 && Shl(1, 15) == 0x8000 && Shl(1, 16) == 0x1_0000;
  }

  /** Codes follow the order of T.81 Figure C.2: add one, then shift by the growth in length. */
  lemma {:induction false} AnnexCOrder(bits: seq<byte>, vals: seq<byte>, k: nat)
    requires Histogram(bits, vals) && k + 1 < |vals|
    ensures var t := TableOf(bits, vals);
      && t.sizes[vals[k]] <= t.sizes[vals[k + 1]]
      && t.codes[vals[k + 1]] == Shl(t.codes[vals[k]] + 1, t.sizes[vals[k + 1]] - t.sizes[vals[k]])
  {
    var t, lens := TableOf(bits, vals), Lens(bits);
    CodeInterval(bits, vals, k);
    CodeInterval(bits, vals, k + 1);
    LensSorted(bits, |bits|);
    NextSlot(t.codes[vals[k]], lens[k], t.codes[vals[k + 1]], lens[k + 1]);
  }

  lemma {:induction false} FirstCodeIsZero(bits: seq<byte>, vals: seq<byte>)
    requires Histogram(bits, vals) && vals != []
    ensures TableOf(bits, vals).codes[vals[0]] == 0
  {
    var lens := Lens(bits);
    CodeInterval(bits, vals, 0);
    ShlAdd(0, 0, Room(lens[0]));
    ShlInjective(TableOf(bits, vals).codes[vals[0]], 0, Room(lens[0]));
  }

  lemma {:induction false} NextSlot(c: nat, l: nat, c': nat, l': nat)
    requires l <= l' <= 16
    requires Shl(c', Room(l')) == Shl(c, Room(l)) + Shl(1, Room(l))
    ensures c' == Shl(c + 1, l' - l)
  {
    ShlAdd(c, 1, Room(l));
    ShlShl(c + 1, l' - l, Room(l'));
    ShlInjective(c', Shl(c + 1, l' - l), Room(l'));
  }

  /** No code is a prefix of another. */
  lemma {:induction false} CanonicalPrefixFree(bits: seq<byte>, vals: seq<byte>)
    requires Histogram(bits, vals)
    ensures TableOf(bits, vals).PrefixFree()
  {
    var t := TableOf(bits, vals);
    forall a: nat, b: nat | a < 256 && b < 256 && a != b && t.Has(a) && t.Has(b) && t.sizes[a] <= t.sizes[b]
      ensures t.Code(b)[..t.sizes[a]] != t.Code(a)
    {
      NotPrefix(bits, vals, IndexOf(vals, a), IndexOf(vals, b));
    }
  }

  /** A prefix would put one code's left end inside another's slice. */
  lemma {:induction false} NotPrefix(bits: seq<byte>, vals: seq<byte>, j: nat, k: nat)
    requires Histogram(bits, vals) && j < |vals| && k < |vals| && j != k
    requires TableOf(bits, vals).sizes[vals[j]] <= TableOf(bits, vals).sizes[vals[k]]
    ensures var t := TableOf(bits, vals);
      t.Code(vals[k])[..t.sizes[vals[j]]] != t.Code(vals[j])
  {
    var t, lens := TableOf(bits, vals), Lens(bits);
    CodeInterval(bits, vals, j);
    CodeInterval(bits, vals, k);
    if t.Code(vals[k])[..lens[j]] == t.Code(vals[j]) {
      PrefixSlice(t.codes[vals[j]], lens[j], t.codes[vals[k]], lens[k]);
      if j < k { BaseMono(lens, j + 1, k); } else { BaseMono(lens, k + 1, j); }
    }
  }

  lemma {:induction false} PrefixSlice(ca: nat, la: nat, cb: nat, lb: nat)
    requires la <= lb <= 16 && ca < Shl(1, la) && cb < Shl(1, lb)
    requires BitsOf(cb, lb)[..la] == BitsOf(ca, la)
    ensures Shl(ca, Room(la)) <= Shl(cb, Room(lb)) < Shl(ca, Room(la)) + Shl(1, Room(la))
  {
    var k: nat := lb - la;
    SharedPrefix(ca, la, cb, k);
    ShrBounds(cb, k);
    SliceScaled(ca, cb, k, Room(lb));
    assert k + Room(lb) == Room(la);
  }

  lemma {:induction false} SharedPrefix(ca: nat, la: nat, cb: nat, k: nat)
    requires ca < Shl(1, la) && cb < Shl(1, la + k) && BitsOf(cb, la + k)[..la] == BitsOf(ca, la)
    ensures Shr(cb, k) == ca
  {
    BitsOfPrefix(cb, la + k, la);
    ShrFits(cb, la, k);
    ValueOfBitsOf(ca, la);
    ValueOfBitsOf(Shr(cb, k), la);
  }

  lemma {:induction false} ShrFits(c: nat, j: nat, k: nat)
    requires c < Shl(1, j + k)
    ensures Shr(c, k) < Shl(1, j)
  {
    var q := Shr(c, k);
    ShrBounds(c, k);
    ShlShl(1, j, k);
    if Shl(1, j) < q { ShlGap(Shl(1, j), q, k); }
  }

  lemma {:induction false} SliceScaled(q: nat, c: nat, j: nat, k: nat)
    requires Shl(q, j) <= c < Shl(q, j) + Shl(1, j)
    ensures Shl(q, j + k) <= Shl(c, k) < Shl(q, j + k) + Shl(1, j + k)
  {
    ShlShl(q, j, k);
    ShlShl(1, j, k);
    ShlAdd(Shl(q, j), Shl(1, j), k);
    ShlGap(c, Shl(q, j) + Shl(1, j), k);
    if Shl(q, j) < c { ShlGap(Shl(q, j), c, k); }
  }

  /** Every entry of a canonical table, present or not, fits its size. */
  lemma {:induction false} CanonicalFits(bits: seq<byte>, vals: seq<byte>)
    requires Histogram(bits, vals)
    ensures TableOf(bits, vals).Fits()
  {
    var t := TableOf(bits, vals);
    forall s: nat | s < 256 ensures t.codes[s] < Shl(1, t.sizes[s]) {
      if s in vals { CodeInterval(bits, vals, IndexOf(vals, s)); }
    }
  }

  // ---- Decoding ----------------------------------------------------------

  /** The symbol below `n`, if any, whose code is exactly `code`. */
  function FindSym(t: HuffTable, code: seq<bool>, n: nat): (r: Option<nat>)
    requires n <= 256 && code != []
    ensures r.Some? ==> r.value < n && t.Has(r.value) && t.Code(r.value) == code
    ensures r.None? ==> forall x: nat | x < n :: t.Code(x) != code
  {
    if n == 0 then None
    else if t.Code(n - 1) == code then Some(n - 1)
    else FindSym(t, code, n - 1)
  }

  /** DECODE of T.81 Figure F.16: take bits until they form a code. */
  function DecodeFrom(t: HuffTable, code: seq<bool>, bits: seq<bool>): (r: Option<(nat, seq<bool>)>)
    ensures r.Some? ==> r.value.0 < 256 && |r.value.1| < |bits|
    decreases |bits|
  {
    if bits == [] || |code| >= 16 then None
    else
      var code' := code + [bits[0]];
      match FindSym(t, code', |t.sizes|)
      case Some(s) => Some((s, bits[1..]))
      case None => DecodeFrom(t, code', bits[1..])
  }

  function DecodeSym(t: HuffTable, bits: seq<bool>): (r: Option<(nat, seq<bool>)>)
    ensures r.Some? ==> r.value.0 < 256 && |r.value.1| < |bits|
  {
    DecodeFrom(t, [], bits)
  }

  /** Greedy decoding is unique: a code followed by anything decodes to its own symbol. */
  lemma {:induction false} DecodeCode(t: HuffTable, s: nat, rest: seq<bool>)
    requires t.PrefixFree() && s < 256 && t.Has(s)
    ensures DecodeSym(t, t.Code(s) + rest) == Some((s, rest))
  {
    assert t.Code(s)[..0] == [] && t.Code(s)[0..] == t.Code(s);
    DecodeRest(t, s, rest, 0);
  }

  lemma {:induction false} DecodeRest(t: HuffTable, s: nat, rest: seq<bool>, n: nat)
    requires t.PrefixFree() && s < 256 && n < t.sizes[s]
    ensures DecodeFrom(t, t.Code(s)[..n], t.Code(s)[n..] + rest) == Some((s, rest))
    decreases t.sizes[s] - n
  {
    var bits := t.Code(s)[n..] + rest;
    var code' := t.Code(s)[..n] + [bits[0]];
    assert code' == t.Code(s)[..n + 1];
    assert bits[1..] == t.Code(s)[n + 1..] + rest;
    forall x: nat | x < 256 && x != s ensures t.Code(x) != code' {
      if t.Has(x) && t.sizes[x] == n + 1 {
        assert t.Code(s)[..t.sizes[x]] != t.Code(x);
      }
    }
    if n + 1 < t.sizes[s] {
      assert |t.Code(s)| != |code'|;
      DecodeRest(t, s, rest, n + 1);
    } else {
      assert t.Code(s)[..n + 1] == t.Code(s);
    }
  }
}
