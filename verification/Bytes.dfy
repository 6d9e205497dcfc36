/** From scan bits to stuffed bytes and back (T.81 sections F.1.2.3 and F.2.2.5). */
module Bytes {
  import opened Bits
  import opened Wrappers
  import opened BitWriter

  /** Whole bytes of a bit list. */
  function Pack(b: seq<bool>): (s: seq<byte>)
    requires |b| % 8 == 0
    ensures 8 * |s| == |b|
  {
    if b == [] then []
    else
      var n := |b| - 8;
      ByteValue(b[n..]);
      Pack(b[..n]) + [ValueOf(b[n..])]
  }

  lemma {:induction false} ByteValue(b: seq<bool>)
    requires |b| == 8
    ensures ValueOf(b) < 256 && BitsOf(ValueOf(b), 8) == b
  {
    BitsOfValueOf(b);
    assert Shl(1, 8) == 256;
  }

  lemma {:induction false} PackLast(b: seq<bool>, last: byte)
    requires |b| % 8 == 0
    ensures Pack(b + BitsOf(last, 8)) == Pack(b) + [last]
  {
    var all := b + BitsOf(last, 8);
    assert all[..|all| - 8] == b && all[|all| - 8..] == BitsOf(last, 8);
    ByteBits(last);
  }

  lemma {:induction false} ByteBits(v: byte)
    ensures ValueOf(BitsOf(v, 8)) == v
  {
    assert Shl(1, 8) == 256;
    ValueOfBitsOf(v, 8);
  }

  lemma {:induction false} PackBits(s: seq<byte>)
    ensures Pack(BytesBits(s)) == s
  {
    if s != [] {
      var init, last := s[..|s| - 1], s[|s| - 1];
      assert s == init + [last];
      PackBits(init);
      PackLast(BytesBits(init), last);
    }
  }

  lemma {:induction false} BitsPack(b: seq<bool>)
    requires |b| % 8 == 0
    ensures BytesBits(Pack(b)) == b
  {
    if b != [] {
      var n := |b| - 8;
      BitsPack(b[..n]);
      ByteValue(b[n..]);
      assert Pack(b)[..|Pack(b)| - 1] == Pack(b[..n]);
      assert b == b[..n] + b[n..];
    }
  }

  lemma {:induction false} BytesBitsAppend(a: seq<byte>, b: seq<byte>)
    ensures BytesBits(a + b) == BytesBits(a) + BytesBits(b)
  {
    if b == [] {
      assert a + b == a;
    } else {
      var n := |b| - 1;
      BytesBitsAppend(a, b[..n]);
      assert (a + b)[..|a + b| - 1] == a + b[..n];
    }
  }

  lemma {:induction false} StuffLast(s: seq<byte>, v: byte)
    ensures Stuff(s + [v]) == Stuff(s) + StuffByte(v)
  {
    assert (s + [v])[..|s|] == s;
  }

  lemma {:induction false} StuffAppend(a: seq<byte>, b: seq<byte>)
    ensures Stuff(a + b) == Stuff(a) + Stuff(b)
  {
    if b == [] {
      assert a + b == a;
    } else {
      var init, last := b[..|b| - 1], b[|b| - 1];
      assert a + b == (a + init) + [last];
      StuffAppend(a, init);
      StuffLast(a + init, last);
    }
  }

  /** Byte stuffing leaves no marker: every 0xFF is followed by zero. */
  lemma {:induction false} StuffHasNoMarker(s: seq<byte>, i: nat)
    requires i < |Stuff(s)| && Stuff(s)[i] == 0xff
    ensures i + 1 < |Stuff(s)| && Stuff(s)[i + 1] == 0x00
  {
    var init := Stuff(s[..|s| - 1]);
    if i < |init| { StuffHasNoMarker(s[..|s| - 1], i); }
  }

  /** The entropy-coded segment of a complete scan. */
  function ScanBytes(bits: seq<bool>): seq<byte> {
    Stuff(Pack(Pad(bits)))
  }

  /** If some whole bytes of a scan do not fit, the whole padded scan does not. */
  lemma {:induction false} TooLongForAll(start: nat, size: nat, bits: seq<bool>, all: seq<bool>)
    requires TooLong(start, size, bits) && bits <= Pad(all)
    ensures size < start + |ScanBytes(all)|
  {
    var w: seq<byte> :| BytesBits(w) <= bits && size < start + |Stuff(w)|;
    BitsPack(Pad(all));
    PrefixOfBytes(w, Pack(Pad(all)));
  }

  lemma {:induction false} PrefixOfBytes(w: seq<byte>, whole: seq<byte>)
    requires BytesBits(w) <= BytesBits(whole)
    ensures |Stuff(w)| <= |Stuff(whole)|
  {
    var head, tail := whole[..|w|], whole[|w|..];
    assert whole == head + tail;
    BytesBitsAppend(head, tail);
    assert BytesBits(head) == BytesBits(w);
    PackBits(head);
    PackBits(w);
    StuffAppend(head, tail);
  }

  // ---- Reading ---------------------------------------------------------------

  /** Removes stuffing up to the next marker; returns the bytes and what follows, marker first. */
  function Unstuff(s: seq<byte>): Option<(seq<byte>, seq<byte>)> {
    if |s| < 2 then None
    else if s[0] == 0xff && s[1] != 0x00 then Some(([], s))
    else
      match Unstuff(s[if s[0] == 0xff then 2 else 1..])
      case None => None
      case Some((w, rest)) => Some(([s[0]] + w, rest))
  }

  lemma {:induction false} UnstuffByte(v: byte, later: seq<byte>)
    requires |later| >= 2 && Unstuff(later).Some?
    ensures Unstuff(StuffByte(v) + later) == Some(([v] + Unstuff(later).value.0, Unstuff(later).value.1))
  {
    var s := StuffByte(v) + later;
    assert s[|StuffByte(v)|..] == later;
  }

  lemma {:induction false} StuffFirst(w: seq<byte>)
    requires w != []
    ensures Stuff(w) == StuffByte(w[0]) + Stuff(w[1..])
  {
    assert w == w[..1] + w[1..];
    StuffAppend(w[..1], w[1..]);
    assert w[..1][..0] == [];
    assert Stuff(w[..1]) == StuffByte(w[0]);
  }

  lemma {:induction false} UnstuffStuff(w: seq<byte>, rest: seq<byte>)
    requires |rest| >= 2 && rest[0] == 0xff && rest[1] != 0x00
    ensures Unstuff(Stuff(w) + rest) == Some((w, rest))
  {
    if w == [] {
      assert Stuff(w) + rest == rest;
    } else {
      var tail, t := w[1..], Stuff(w[1..]);
      assert w == [w[0]] + tail;
      UnstuffStuff(tail, rest);
      UnstuffByte(w[0], t + rest);
      StuffFirst(w);
      Assoc(StuffByte(w[0]), t, rest);
    }
  }
}
