/** The bounded output buffer and 32-bit accumulator of `struct t6_jpeg_ctx` (trigger6_codec.c:35-42, 172-230). */
module BitWriter {
  import opened Bits

  /** Byte stuffing of T.81 section F.1.2.3: a zero byte after every 0xFF. */
  function StuffByte(v: byte): seq<byte> {
    if v == 0xff then [0xff, 0x00] else [v]
  }

  function Stuff(s: seq<byte>): seq<byte> {
    if s == [] then [] else Stuff(s[..|s| - 1]) + StuffByte(s[|s| - 1])
  }

  /** A C `unsigned int`, most significant bit first. */
  type Word = s: seq<bool> | |s| == 32 witness Repeat(false, 32)

  function Or(a: Word, b: Word): Word {
    seq(32, i requires 0 <= i < 32 => a[i] || b[i])
  }

  function ShiftLeft(a: Word, k: nat): Word
    requires k <= 32
  {
    a[k..] + Repeat(false, k)
  }

  class JpegCtx {
    const dst: array<byte>
    const dstSize: nat
    var pos: nat
    var bitbuf: Word
    var bitcnt: nat
    var overflow: bool
    /** Bytes written before the scan, the bits of the scan, and its whole bytes before stuffing. */
    ghost var head: seq<byte>
    ghost var bits: seq<bool>
    ghost var whole: seq<byte>
    /** What lies past the end of the buffer, which is never written. */
    ghost const beyond: seq<byte>

    constructor (dst: array<byte>, dstSize: nat)
      requires dstSize <= dst.Length
      ensures this.dst == dst && this.dstSize == dstSize && Valid()
      ensures Unscanned() && Out() == [] && beyond == dst[dstSize..] && fresh(this)
    {
      this.dst := dst;
      this.dstSize := dstSize;
      pos := 0;
      bitbuf := Repeat(false, 32);
      bitcnt := 0;
      overflow := false;
      head, bits, whole, beyond := [], [], [], dst[dstSize..];
    }

    ghost predicate Bounded()
      reads this, dst
    {
      pos <= dstSize <= dst.Length && dst[dstSize..] == beyond
    }

    /** Everything written so far. */
    ghost function Out(): seq<byte>
      reads this, dst
      requires Bounded()
    {
      dst[..pos]
    }

    /** Output is the head plus the stuffed whole bytes; the rest of the scan waits in the accumulator. */
    ghost predicate Tied()
      reads this, dst
    {
      && Bounded() && !overflow && bitcnt <= 32
      && Out() == head + Stuff(whole)
      && bits == BytesBits(whole) + bitbuf[..bitcnt]
      && Clean(bitbuf, bitcnt)
    }

    ghost predicate Valid()
      reads this, dst
    {
      Tied() && bitcnt < 8
    }

    /** The scan, as far as `bits`, does not fit. */
    ghost predicate Overrun()
      reads this, dst
    {
      Bounded() && overflow && TooLong(|head|, dstSize, bits)
    }

    /** No scan bit is pending yet: only whole header bytes have been written. */
    ghost predicate Unscanned()
      reads this, dst
    {
      Bounded() && !overflow && bitcnt == 0 && Clean(bitbuf, 0) && bits == [] && whole == []
    }

    /** From here on, output is the scan. */
    ghost method StartScan()
      requires Unscanned()
      modifies this`head
      ensures Valid() && head == Out() && bits == []
    {
      head := Out();
    }

    method PutByte(value: byte) returns (ok: bool)
      requires Bounded()
      modifies this`pos, this`overflow, dst
      ensures Bounded()
      ensures ok == (old(pos) < dstSize)
      ensures Out() == if ok then old(Out()) + [value] else old(Out())
      ensures overflow == (old(overflow) || !ok)
    {
      if pos >= dstSize {
        overflow := true;
        return false;
      }
      dst[pos] := value;
      pos := pos + 1;
      return true;
    }

    /** A chain of `put_byte` calls, or a counted loop of them, that stops at the first failure. */
    method PutBytes(s: seq<byte>) returns (ok: bool)
      requires Bounded()
      modifies this`pos, this`overflow, dst
      ensures Bounded()
      ensures ok == (old(pos) + |s| <= dstSize)
      ensures ok ==> Out() == old(Out()) + s
      ensures overflow == (old(overflow) || !ok)
    {
      for i := 0 to |s|
        invariant Bounded() && pos == old(pos) + i
        invariant Out() == old(Out()) + s[..i] && overflow == old(overflow)
      {
        ok := PutByte(s[i]);
        if !ok { return; }
        assert s[..i + 1] == s[..i] + [s[i]];
      }
      assert s[..|s|] == s;
      ok := true;
    }

    method PutScanByte(value: byte) returns (ok: bool)
      requires Bounded()
      modifies this`pos, this`overflow, dst
      ensures Bounded()
      ensures ok == (old(pos) + |StuffByte(value)| <= dstSize)
      ensures ok ==> Out() == old(Out()) + StuffByte(value)
      ensures overflow == (old(overflow) || !ok)
    {
      ok := PutByte(value);
      if ok && value == 0xff {
        ok := PutByte(0x00);
      }
    }

    /** `put_scan_byte(bitbuf >> 24)`, recorded in `whole` even when it does not fit. */
    method PutHighByte() returns (ok: bool)
      requires Bounded() && !overflow && Out() == head + Stuff(whole)
      modifies this`pos, this`overflow, this`whole, dst
      ensures Bounded() && overflow == !ok
      ensures BytesBits(whole) == BytesBits(old(whole)) + bitbuf[..8]
      ensures if ok then Out() == head + Stuff(whole) else dstSize < |head| + |Stuff(whole)|
    {
      BitsOfValueOf(bitbuf[..8]);
      assert Shl(1, 8) == 256;
      var value: byte := ValueOf(bitbuf[..8]);
      ok := PutScanByte(value);
      whole := whole + [value];
      assert whole[..|whole| - 1] == old(whole);
    }

    /** `t6_jpeg_put_bits` (trigger6_codec.c:203-221), in its two halves. */
    method PutBits(code: nat, size: nat) returns (ok: bool)
      requires Valid() && size <= 16 && code < Shl(1, size)
      modifies this, dst
      ensures head == old(head) && bits == old(bits) + BitsOf(code, size)
      ensures if ok then Valid() else Overrun()
    {
      if size == 0 {
        assert BitsOf(code, size) == [];
        return true;
      }
      Accumulate(code, size);
      ok := Drain();
    }

    method Accumulate(code: nat, size: nat)
      requires Valid() && size <= 16 && code < Shl(1, size)
      modifies this`bits, this`bitbuf, this`bitcnt
      ensures Tied() && bits == old(bits) + BitsOf(code, size)
    {
      var shifted := ShiftLeft(BitsOf(code, 32), 32 - bitcnt - size);
      OrAppends(bitbuf, bitcnt, code, size, BytesBits(whole));
      bits := bits + BitsOf(code, size);
      bitbuf := Or(bitbuf, shifted);
      bitcnt := bitcnt + size;
    }

    method Drain() returns (ok: bool)
      requires Tied()
      modifies this`pos, this`overflow, this`whole, this`bitbuf, this`bitcnt, dst
      ensures if ok then Valid() else Overrun()
    {
      while bitcnt >= 8
        invariant Tied()
      {
        ByteLeaves(bitbuf, bitcnt, BytesBits(whole));
        ok := PutHighByte();
        if !ok {
          assert BytesBits(whole) <= bits;
          return;
        }
        bitbuf := ShiftLeft(bitbuf, 8);
        bitcnt := bitcnt - 8;
      }
      return true;
    }

    /** Pads the last partial byte with ones. */
    method FlushBits() returns (ok: bool)
      requires Valid()
      modifies this, dst
      ensures head == old(head) && bits == Pad(old(bits))
      ensures if ok then Flushed() else Overrun()
    {
      assert |bits| % 8 == bitcnt;
      if bitcnt == 0 {
        return true;
      }
      FlushFills(bitbuf, bitcnt);
      ghost var last := bitbuf[..bitcnt] + Repeat(true, 8 - bitcnt);
      bits := bits + Repeat(true, 8 - bitcnt);
      assert bits == BytesBits(whole) + last;
      bitbuf := Or(bitbuf, BitsOf(Shl(1, 32 - bitcnt) - 1, 32));
      ok := PutHighByte();
    }

    /** After an overrun nothing more is written: later bits are only recorded as lost. */
    ghost method Extend(more: seq<bool>)
      requires Overrun()
      modifies this`bits
      ensures Overrun() && bits == old(bits) + more
    {
      TooLongGrows(|head|, dstSize, bits, more);
      bits := bits + more;
    }

    /** The whole scan is in the buffer. */
    ghost predicate Flushed()
      reads this, dst
    {
      Bounded() && !overflow && Out() == head + Stuff(whole) && BytesBits(whole) == bits
    }
  }

  /** Some whole bytes of a scan that starts with `bits` end past `size`. */
  ghost predicate TooLong(start: nat, size: nat, bits: seq<bool>) {
    exists w: seq<byte> :: BytesBits(w) <= bits && size < start + |Stuff(w)|
  }

  lemma {:induction false} TooLongGrows(start: nat, size: nat, bits: seq<bool>, more: seq<bool>)
    requires TooLong(start, size, bits)
    ensures TooLong(start, size, bits + more)
  {
    var w: seq<byte> :| BytesBits(w) <= bits && size < start + |Stuff(w)|;
    assert BytesBits(w) <= bits + more;
  }

  ghost predicate Clean(w: Word, n: nat)
    requires n <= 32
  {
    forall i | n <= i < 32 :: !w[i]
  }

  /** One-bits up to the next byte boundary. */
  function Pad(bits: seq<bool>): (p: seq<bool>)
    ensures |p| % 8 == 0 && bits <= p
  {
    if |bits| % 8 == 0 then bits else bits + Repeat(true, 8 - |bits| % 8)
  }

  lemma {:induction false} ByteLeaves(w: Word, n: nat, before: seq<bool>)
    requires 8 <= n <= 32 && Clean(w, n)
    ensures Clean(ShiftLeft(w, 8), n - 8)
    ensures before + w[..n] == before + w[..8] + ShiftLeft(w, 8)[..n - 8]
  {
    assert ShiftLeft(w, 8)[..n - 8] == w[8..n];
  }

  lemma {:induction false} Shifted(code: nat, size: nat, n: nat)
    requires n + size <= 32 && code < Shl(1, size)
    ensures var s := ShiftLeft(BitsOf(code, 32), 32 - n - size);
      && (forall i | 0 <= i < n || n + size <= i < 32 :: !s[i])
      && s[n..n + size] == BitsOf(code, size)
  {
    BitsOfWiden(code, size, 32 - size);
    assert 32 - size + size == 32;
  }

  lemma {:induction false} OrAppends(w: Word, n: nat, code: nat, size: nat, before: seq<bool>)
    requires n + size <= 32 && Clean(w, n) && code < Shl(1, size)
    ensures var r := Or(w, ShiftLeft(BitsOf(code, 32), 32 - n - size));
      before + w[..n] + BitsOf(code, size) == before + r[..n + size] && Clean(r, n + size)
  {
    Shifted(code, size, n);
    OrParts(w, ShiftLeft(BitsOf(code, 32), 32 - n - size), n, size);
  }

  lemma {:induction false} OrParts(w: Word, s: Word, n: nat, size: nat)
    requires n + size <= 32 && Clean(w, n)
    requires forall i | 0 <= i < n || n + size <= i < 32 :: !s[i]
    ensures Or(w, s)[..n + size] == w[..n] + s[n..n + size] && Clean(Or(w, s), n + size)
  {
  }

  lemma {:induction false} FlushFills(w: Word, n: nat)
    requires 0 < n < 8 && Clean(w, n)
    ensures Or(w, BitsOf(Shl(1, 32 - n) - 1, 32))[..8] == w[..n] + Repeat(true, 8 - n)
  {
    BitsOfOnes(32 - n);
    BitsOfWiden(Shl(1, 32 - n) - 1, 32 - n, n);
    assert n + (32 - n) == 32;
  }
}
