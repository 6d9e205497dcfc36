/** The four static Huffman specifications of trigger6_codec.c:95-165 (T.81 Tables K.3 to K.6). */
module StandardTables {
  import opened Bits
  import opened Huffman

  function DcLumaBits(): (b: seq<byte>)
    ensures |b| == 17 && b[0] == 0
  {
    [0, 0, 1, 5, 1, 1, 1, 1, 1, 1, 0, 0, 0, 0, 0, 0, 0]
  }

  function AcLumaBits(): (b: seq<byte>)
    ensures |b| == 17 && b[0] == 0
  {
    [0, 0, 2, 1, 3, 3, 2, 4, 3, 5, 5, 4, 4, 0, 0, 1, 125]
  }

  function DcChromaBits(): (b: seq<byte>)
    ensures |b| == 17 && b[0] == 0
  {
    [0, 0, 3, 1, 1, 1, 1, 1, 1, 1, 1, 1, 0, 0, 0, 0, 0]
  }

  function AcChromaBits(): (b: seq<byte>)
    ensures |b| == 17 && b[0] == 0
  {
    [0, 0, 2, 1, 2, 4, 4, 3, 4, 7, 5, 4, 4, 0, 1, 2, 119]
  }

  function DcVals(): (v: seq<byte>)
    ensures |v| == 12 && forall k: nat :: k <= 11 ==> v[k] == k
  {
    [0, 1, 2, 3, 4, 5, 6, 7, 8, 9, 10, 11]
  }

  function AcLumaVals(): (v: seq<byte>)
    ensures |v| == 162
  {
    seq(162, k requires 0 <= k < 162 => AcLumaVal(k))
  }

  function AcChromaVals(): (v: seq<byte>)
    ensures |v| == 162
  {
    seq(162, k requires 0 <= k < 162 => AcChromaVal(k))
  }

  function Sym(run: nat, size: nat): nat { 16 * run + size }

  /** Every symbol the AC coder can ask for: runs 0..15 of categories 1..10, EOB and ZRL. */
  ghost predicate Complete(vals: seq<byte>) {
    && (forall r: nat, s: nat | r < 16 && 1 <= s <= 10 :: Sym(r, s) in vals)
    && 0x00 in vals && 0xf0 in vals
  }

  /** `t6_jpeg_ac_luma_vals`, in the rows of eight of its source text. */
  function AcLumaVal(k: nat): byte
    requires k < 162
  {
    var j := k % 8;
    match k / 8
    case 0 => (match j case 0 => 0x01 case 1 => 0x02 case 2 => 0x03 case 3 => 0x00 case 4 => 0x04 case 5 => 0x11
      case 6 => 0x05 case _ => 0x12)
    case 1 => (match j case 0 => 0x21 case 1 => 0x31 case 2 => 0x41 case 3 => 0x06 case 4 => 0x13 case 5 => 0x51
      case 6 => 0x61 case _ => 0x07)
    case 2 => (match j case 0 => 0x22 case 1 => 0x71 case 2 => 0x14 case 3 => 0x32 case 4 => 0x81 case 5 => 0x91
      case 6 => 0xa1 case _ => 0x08)
    case 3 => (match j case 0 => 0x23 case 1 => 0x42 case 2 => 0xb1 case 3 => 0xc1 case 4 => 0x15 case 5 => 0x52
      case 6 => 0xd1 case _ => 0xf0)
    case 4 => (match j case 0 => 0x24 case 1 => 0x33 case 2 => 0x62 case 3 => 0x72 case 4 => 0x82 case 5 => 0x09
      case 6 => 0x0a case _ => 0x16)
    case 5 => (match j case 0 => 0x17 case 1 => 0x18 case 2 => 0x19 case 3 => 0x1a case 4 => 0x25 case 5 => 0x26
      case 6 => 0x27 case _ => 0x28)
    case 6 => (match j case 0 => 0x29 case 1 => 0x2a case 2 => 0x34 case 3 => 0x35 case 4 => 0x36 case 5 => 0x37
      case 6 => 0x38 case _ => 0x39)
    case 7 => (match j case 0 => 0x3a case 1 => 0x43 case 2 => 0x44 case 3 => 0x45 case 4 => 0x46 case 5 => 0x47
      case 6 => 0x48 case _ => 0x49)
    case 8 => (match j case 0 => 0x4a case 1 => 0x53 case 2 => 0x54 case 3 => 0x55 case 4 => 0x56 case 5 => 0x57
      case 6 => 0x58 case _ => 0x59)
    case 9 => (match j case 0 => 0x5a case 1 => 0x63 case 2 => 0x64 case 3 => 0x65 case 4 => 0x66 case 5 => 0x67
      case 6 => 0x68 case _ => 0x69)
    case 10 => (match j case 0 => 0x6a case 1 => 0x73 case 2 => 0x74 case 3 => 0x75 case 4 => 0x76 case 5 => 0x77
      case 6 => 0x78 case _ => 0x79)
    case 11 => (match j case 0 => 0x7a case 1 => 0x83 case 2 => 0x84 case 3 => 0x85 case 4 => 0x86 case 5 => 0x87
      case 6 => 0x88 case _ => 0x89)
    case 12 => (match j case 0 => 0x8a case 1 => 0x92 case 2 => 0x93 case 3 => 0x94 case 4 => 0x95 case 5 => 0x96
      case 6 => 0x97 case _ => 0x98)
    case 13 => (match j case 0 => 0x99 case 1 => 0x9a case 2 => 0xa2 case 3 => 0xa3 case 4 => 0xa4 case 5 => 0xa5
      case 6 => 0xa6 case _ => 0xa7)
    case 14 => (match j case 0 => 0xa8 case 1 => 0xa9 case 2 => 0xaa case 3 => 0xb2 case 4 => 0xb3 case 5 => 0xb4
      case 6 => 0xb5 case _ => 0xb6)
    case 15 => (match j case 0 => 0xb7 case 1 => 0xb8 case 2 => 0xb9 case 3 => 0xba case 4 => 0xc2 case 5 => 0xc3
      case 6 => 0xc4 case _ => 0xc5)
    case 16 => (match j case 0 => 0xc6 case 1 => 0xc7 case 2 => 0xc8 case 3 => 0xc9 case 4 => 0xca case 5 => 0xd2
      case 6 => 0xd3 case _ => 0xd4)
    case 17 => (match j case 0 => 0xd5 case 1 => 0xd6 case 2 => 0xd7 case 3 => 0xd8 case 4 => 0xd9 case 5 => 0xda
      case 6 => 0xe1 case _ => 0xe2)
    case 18 => (match j case 0 => 0xe3 case 1 => 0xe4 case 2 => 0xe5 case 3 => 0xe6 case 4 => 0xe7 case 5 => 0xe8
      case 6 => 0xe9 case _ => 0xea)
    case 19 => (match j case 0 => 0xf1 case 1 => 0xf2 case 2 => 0xf3 case 3 => 0xf4 case 4 => 0xf5 case 5 => 0xf6
      case 6 => 0xf7 case _ => 0xf8)
    case _ => (match j case 0 => 0xf9 case _ => 0xfa)
  }

  /** Where the symbol of `AcLumaVal` for zero run `sym / 16` and category `sym % 16` stands. */
  function AcLumaPos(sym: nat): nat {
    var s := sym % 16;
    if sym == 0x00 then 3 else if sym == 0xf0 then 31 else if s == 0 then 0 else
    match sym / 16
    case 0 => (match s - 1 case 0 => 0 case 1 => 1 case 2 => 2 case 3 => 4 case 4 => 6 case 5 => 11 case 6 => 15
      case 7 => 23 case 8 => 37 case _ => 38)
    case 1 => (match s - 1 case 0 => 5 case 1 => 7 case 2 => 12 case 3 => 18 case 4 => 28 case 5 => 39 case 6 => 40
      case 7 => 41 case 8 => 42 case _ => 43)
    case 2 => (match s - 1 case 0 => 8 case 1 => 16 case 2 => 24 case 3 => 32 case 4 => 44 case 5 => 45 case 6 => 46
      case 7 => 47 case 8 => 48 case _ => 49)
    case 3 => (match s - 1 case 0 => 9 case 1 => 19 case 2 => 33 case 3 => 50 case 4 => 51 case 5 => 52 case 6 => 53
      case 7 => 54 case 8 => 55 case _ => 56)
    case 4 => (match s - 1 case 0 => 10 case 1 => 25 case 2 => 57 case 3 => 58 case 4 => 59 case 5 => 60 case 6 => 61
      case 7 => 62 case 8 => 63 case _ => 64)
    case 5 => (match s - 1 case 0 => 13 case 1 => 29 case 2 => 65 case 3 => 66 case 4 => 67 case 5 => 68 case 6 => 69
      case 7 => 70 case 8 => 71 case _ => 72)
    case 6 => (match s - 1 case 0 => 14 case 1 => 34 case 2 => 73 case 3 => 74 case 4 => 75 case 5 => 76 case 6 => 77
      case 7 => 78 case 8 => 79 case _ => 80)
    case 7 => (match s - 1 case 0 => 17 case 1 => 35 case 2 => 81 case 3 => 82 case 4 => 83 case 5 => 84 case 6 => 85
      case 7 => 86 case 8 => 87 case _ => 88)
    case 8 => (match s - 1 case 0 => 20 case 1 => 36 case 2 => 89 case 3 => 90 case 4 => 91 case 5 => 92 case 6 => 93
      case 7 => 94 case 8 => 95 case _ => 96)
    case 9 => (match s - 1 case 0 => 21 case 1 => 97 case 2 => 98 case 3 => 99 case 4 => 100 case 5 => 101
      case 6 => 102 case 7 => 103 case 8 => 104 case _ => 105)
    case 10 => (match s - 1 case 0 => 22 case 1 => 106 case 2 => 107 case 3 => 108 case 4 => 109 case 5 => 110
      case 6 => 111 case 7 => 112 case 8 => 113 case _ => 114)
    case 11 => (match s - 1 case 0 => 26 case 1 => 115 case 2 => 116 case 3 => 117 case 4 => 118 case 5 => 119
      case 6 => 120 case 7 => 121 case 8 => 122 case _ => 123)
    case 12 => (match s - 1 case 0 => 27 case 1 => 124 case 2 => 125 case 3 => 126 case 4 => 127 case 5 => 128
      case 6 => 129 case 7 => 130 case 8 => 131 case _ => 132)
    case 13 => (match s - 1 case 0 => 30 case 1 => 133 case 2 => 134 case 3 => 135 case 4 => 136 case 5 => 137
      case 6 => 138 case 7 => 139 case 8 => 140 case _ => 141)
    case 14 => (match s - 1 case 0 => 142 case 1 => 143 case 2 => 144 case 3 => 145 case 4 => 146 case 5 => 147
      case 6 => 148 case 7 => 149 case 8 => 150 case _ => 151)
    case _ => (match s - 1 case 0 => 152 case 1 => 153 case 2 => 154 case 3 => 155 case 4 => 156 case 5 => 157
      case 6 => 158 case 7 => 159 case 8 => 160 case _ => 161)
  }

  lemma AcLumaPosVal0(k: nat)
    requires 0 <= k < 56
    ensures AcLumaPos(AcLumaVal(k)) == k
  {
  }

  lemma AcLumaPosVal56(k: nat)
    requires 56 <= k < 112
    ensures AcLumaPos(AcLumaVal(k)) == k
  {
  }

  lemma AcLumaPosVal112(k: nat)
    requires 112 <= k < 162
    ensures AcLumaPos(AcLumaVal(k)) == k
  {
  }

  lemma AcLumaValPos0(r: nat, s: nat)
    requires 0 <= r < 8 && 1 <= s <= 10
    ensures AcLumaPos(16 * r + s) < 162 && AcLumaVal(AcLumaPos(16 * r + s)) == 16 * r + s
  {
    assert (16 * r + s) / 16 == r && (16 * r + s) % 16 == s;
  }

  lemma AcLumaValPos8(r: nat, s: nat)
    requires 8 <= r < 16 && 1 <= s <= 10
    ensures AcLumaPos(16 * r + s) < 162 && AcLumaVal(AcLumaPos(16 * r + s)) == 16 * r + s
  {
    assert (16 * r + s) / 16 == r && (16 * r + s) % 16 == s;
  }

  lemma AcLumaComplete()
    ensures Distinct(AcLumaVals()) && Complete(AcLumaVals())
  {
    forall i, j | 0 <= i < j < 162 ensures AcLumaVals()[i] != AcLumaVals()[j] {
      AcLumaPosVal(i);
      AcLumaPosVal(j);
    }
    forall r: nat, s: nat | r < 16 && 1 <= s <= 10 ensures Sym(r, s) in AcLumaVals() {
      if r < 8 { AcLumaValPos0(r, s); } else { AcLumaValPos8(r, s); }
      assert AcLumaVals()[AcLumaPos(Sym(r, s))] == Sym(r, s);
    }
    assert AcLumaVals()[3] == 0x00 && AcLumaVals()[31] == 0xf0;
  }

  lemma AcLumaPosVal(k: nat)
    requires k < 162
    ensures AcLumaPos(AcLumaVal(k)) == k
  {
    if k < 56 { AcLumaPosVal0(k); } else if k < 112 { AcLumaPosVal56(k); } else { AcLumaPosVal112(k); }
  }

  /** `t6_jpeg_ac_chroma_vals`, in the rows of eight of its source text. */
  function AcChromaVal(k: nat): byte
    requires k < 162
  {
    var j := k % 8;
    match k / 8
    case 0 => (match j case 0 => 0x00 case 1 => 0x01 case 2 => 0x02 case 3 => 0x03 case 4 => 0x11 case 5 => 0x04
      case 6 => 0x05 case _ => 0x21)
    case 1 => (match j case 0 => 0x31 case 1 => 0x06 case 2 => 0x12 case 3 => 0x41 case 4 => 0x51 case 5 => 0x07
      case 6 => 0x61 case _ => 0x71)
    case 2 => (match j case 0 => 0x13 case 1 => 0x22 case 2 => 0x32 case 3 => 0x81 case 4 => 0x08 case 5 => 0x14
      case 6 => 0x42 case _ => 0x91)
    case 3 => (match j case 0 => 0xa1 case 1 => 0xb1 case 2 => 0xc1 case 3 => 0x09 case 4 => 0x23 case 5 => 0x33
      case 6 => 0x52 case _ => 0xf0)
    case 4 => (match j case 0 => 0x15 case 1 => 0x62 case 2 => 0x72 case 3 => 0xd1 case 4 => 0x0a case 5 => 0x16
      case 6 => 0x24 case _ => 0x34)
    case 5 => (match j case 0 => 0xe1 case 1 => 0x25 case 2 => 0xf1 case 3 => 0x17 case 4 => 0x18 case 5 => 0x19
      case 6 => 0x1a case _ => 0x26)
    case 6 => (match j case 0 => 0x27 case 1 => 0x28 case 2 => 0x29 case 3 => 0x2a case 4 => 0x35 case 5 => 0x36
      case 6 => 0x37 case _ => 0x38)
    case 7 => (match j case 0 => 0x39 case 1 => 0x3a case 2 => 0x43 case 3 => 0x44 case 4 => 0x45 case 5 => 0x46
      case 6 => 0x47 case _ => 0x48)
    case 8 => (match j case 0 => 0x49 case 1 => 0x4a case 2 => 0x53 case 3 => 0x54 case 4 => 0x55 case 5 => 0x56
      case 6 => 0x57 case _ => 0x58)
    case 9 => (match j case 0 => 0x59 case 1 => 0x5a case 2 => 0x63 case 3 => 0x64 case 4 => 0x65 case 5 => 0x66
      case 6 => 0x67 case _ => 0x68)
    case 10 => (match j case 0 => 0x69 case 1 => 0x6a case 2 => 0x73 case 3 => 0x74 case 4 => 0x75 case 5 => 0x76
      case 6 => 0x77 case _ => 0x78)
    case 11 => (match j case 0 => 0x79 case 1 => 0x7a case 2 => 0x82 case 3 => 0x83 case 4 => 0x84 case 5 => 0x85
      case 6 => 0x86 case _ => 0x87)
    case 12 => (match j case 0 => 0x88 case 1 => 0x89 case 2 => 0x8a case 3 => 0x92 case 4 => 0x93 case 5 => 0x94
      case 6 => 0x95 case _ => 0x96)
    case 13 => (match j case 0 => 0x97 case 1 => 0x98 case 2 => 0x99 case 3 => 0x9a case 4 => 0xa2 case 5 => 0xa3
      case 6 => 0xa4 case _ => 0xa5)
    case 14 => (match j case 0 => 0xa6 case 1 => 0xa7 case 2 => 0xa8 case 3 => 0xa9 case 4 => 0xaa case 5 => 0xb2
      case 6 => 0xb3 case _ => 0xb4)
    case 15 => (match j case 0 => 0xb5 case 1 => 0xb6 case 2 => 0xb7 case 3 => 0xb8 case 4 => 0xb9 case 5 => 0xba
      case 6 => 0xc2 case _ => 0xc3)
    case 16 => (match j case 0 => 0xc4 case 1 => 0xc5 case 2 => 0xc6 case 3 => 0xc7 case 4 => 0xc8 case 5 => 0xc9
      case 6 => 0xca case _ => 0xd2)
    case 17 => (match j case 0 => 0xd3 case 1 => 0xd4 case 2 => 0xd5 case 3 => 0xd6 case 4 => 0xd7 case 5 => 0xd8
      case 6 => 0xd9 case _ => 0xda)
    case 18 => (match j case 0 => 0xe2 case 1 => 0xe3 case 2 => 0xe4 case 3 => 0xe5 case 4 => 0xe6 case 5 => 0xe7
      case 6 => 0xe8 case _ => 0xe9)
    case 19 => (match j case 0 => 0xea case 1 => 0xf2 case 2 => 0xf3 case 3 => 0xf4 case 4 => 0xf5 case 5 => 0xf6
      case 6 => 0xf7 case _ => 0xf8)
    case _ => (match j case 0 => 0xf9 case _ => 0xfa)
  }

  /** Where the symbol of `AcChromaVal` for zero run `sym / 16` and category `sym % 16` stands. */
  function AcChromaPos(sym: nat): nat {
    var s := sym % 16;
    if sym == 0x00 then 0 else if sym == 0xf0 then 31 else if s == 0 then 0 else
    match sym / 16
    case 0 => (match s - 1 case 0 => 1 case 1 => 2 case 2 => 3 case 3 => 5 case 4 => 6 case 5 => 9 case 6 => 13
      case 7 => 20 case 8 => 27 case _ => 36)
    case 1 => (match s - 1 case 0 => 4 case 1 => 10 case 2 => 16 case 3 => 21 case 4 => 32 case 5 => 37 case 6 => 43
      case 7 => 44 case 8 => 45 case _ => 46)
    case 2 => (match s - 1 case 0 => 7 case 1 => 17 case 2 => 28 case 3 => 38 case 4 => 41 case 5 => 47 case 6 => 48
      case 7 => 49 case 8 => 50 case _ => 51)
    case 3 => (match s - 1 case 0 => 8 case 1 => 18 case 2 => 29 case 3 => 39 case 4 => 52 case 5 => 53 case 6 => 54
      case 7 => 55 case 8 => 56 case _ => 57)
    case 4 => (match s - 1 case 0 => 11 case 1 => 22 case 2 => 58 case 3 => 59 case 4 => 60 case 5 => 61 case 6 => 62
      case 7 => 63 case 8 => 64 case _ => 65)
    case 5 => (match s - 1 case 0 => 12 case 1 => 30 case 2 => 66 case 3 => 67 case 4 => 68 case 5 => 69 case 6 => 70
      case 7 => 71 case 8 => 72 case _ => 73)
    case 6 => (match s - 1 case 0 => 14 case 1 => 33 case 2 => 74 case 3 => 75 case 4 => 76 case 5 => 77 case 6 => 78
      case 7 => 79 case 8 => 80 case _ => 81)
    case 7 => (match s - 1 case 0 => 15 case 1 => 34 case 2 => 82 case 3 => 83 case 4 => 84 case 5 => 85 case 6 => 86
      case 7 => 87 case 8 => 88 case _ => 89)
    case 8 => (match s - 1 case 0 => 19 case 1 => 90 case 2 => 91 case 3 => 92 case 4 => 93 case 5 => 94 case 6 => 95
      case 7 => 96 case 8 => 97 case _ => 98)
    case 9 => (match s - 1 case 0 => 23 case 1 => 99 case 2 => 100 case 3 => 101 case 4 => 102 case 5 => 103
      case 6 => 104 case 7 => 105 case 8 => 106 case _ => 107)
    case 10 => (match s - 1 case 0 => 24 case 1 => 108 case 2 => 109 case 3 => 110 case 4 => 111 case 5 => 112
      case 6 => 113 case 7 => 114 case 8 => 115 case _ => 116)
    case 11 => (match s - 1 case 0 => 25 case 1 => 117 case 2 => 118 case 3 => 119 case 4 => 120 case 5 => 121
      case 6 => 122 case 7 => 123 case 8 => 124 case _ => 125)
    case 12 => (match s - 1 case 0 => 26 case 1 => 126 case 2 => 127 case 3 => 128 case 4 => 129 case 5 => 130
      case 6 => 131 case 7 => 132 case 8 => 133 case _ => 134)
    case 13 => (match s - 1 case 0 => 35 case 1 => 135 case 2 => 136 case 3 => 137 case 4 => 138 case 5 => 139
      case 6 => 140 case 7 => 141 case 8 => 142 case _ => 143)
    case 14 => (match s - 1 case 0 => 40 case 1 => 144 case 2 => 145 case 3 => 146 case 4 => 147 case 5 => 148
      case 6 => 149 case 7 => 150 case 8 => 151 case _ => 152)
    case _ => (match s - 1 case 0 => 42 case 1 => 153 case 2 => 154 case 3 => 155 case 4 => 156 case 5 => 157
      case 6 => 158 case 7 => 159 case 8 => 160 case _ => 161)
  }

  lemma AcChromaPosVal0(k: nat)
    requires 0 <= k < 56
    ensures AcChromaPos(AcChromaVal(k)) == k
  {
  }

  lemma AcChromaPosVal56(k: nat)
    requires 56 <= k < 112
    ensures AcChromaPos(AcChromaVal(k)) == k
  {
  }

  lemma AcChromaPosVal112(k: nat)
    requires 112 <= k < 162
    ensures AcChromaPos(AcChromaVal(k)) == k
  {
  }

  lemma AcChromaValPos0(r: nat, s: nat)
    requires 0 <= r < 8 && 1 <= s <= 10
    ensures AcChromaPos(16 * r + s) < 162 && AcChromaVal(AcChromaPos(16 * r + s)) == 16 * r + s
  {
    assert (16 * r + s) / 16 == r && (16 * r + s) % 16 == s;
  }

  lemma AcChromaValPos8(r: nat, s: nat)
    requires 8 <= r < 16 && 1 <= s <= 10
    ensures AcChromaPos(16 * r + s) < 162 && AcChromaVal(AcChromaPos(16 * r + s)) == 16 * r + s
  {
    assert (16 * r + s) / 16 == r && (16 * r + s) % 16 == s;
  }

  lemma AcChromaComplete()
    ensures Distinct(AcChromaVals()) && Complete(AcChromaVals())
  {
    forall i, j | 0 <= i < j < 162 ensures AcChromaVals()[i] != AcChromaVals()[j] {
      AcChromaPosVal(i);
      AcChromaPosVal(j);
    }
    forall r: nat, s: nat | r < 16 && 1 <= s <= 10 ensures Sym(r, s) in AcChromaVals() {
      if r < 8 { AcChromaValPos0(r, s); } else { AcChromaValPos8(r, s); }
      assert AcChromaVals()[AcChromaPos(Sym(r, s))] == Sym(r, s);
    }
    assert AcChromaVals()[0] == 0x00 && AcChromaVals()[31] == 0xf0;
  }

  lemma AcChromaPosVal(k: nat)
    requires k < 162
    ensures AcChromaPos(AcChromaVal(k)) == k
  {
    if k < 56 { AcChromaPosVal0(k); } else if k < 112 { AcChromaPosVal56(k); } else { AcChromaPosVal112(k); }
  }

  // ---- Zigzag order --------------------------------------------------------

  /** `t6_jpeg_zigzag`. */
  function Zigzag(i: nat): (r: nat)
    requires i < 64
    ensures r < 64 && (r == 0 <==> i == 0)
  {
    var j := i % 8;
    match i / 8
    case 0 => (match j case 0 => 0 case 1 => 1 case 2 => 8 case 3 => 16 case 4 => 9 case 5 => 2 case 6 => 3
      case _ => 10)
    case 1 => (match j case 0 => 17 case 1 => 24 case 2 => 32 case 3 => 25 case 4 => 18 case 5 => 11 case 6 => 4
      case _ => 5)
    case 2 => (match j case 0 => 12 case 1 => 19 case 2 => 26 case 3 => 33 case 4 => 40 case 5 => 48 case 6 => 41
      case _ => 34)
    case 3 => (match j case 0 => 27 case 1 => 20 case 2 => 13 case 3 => 6 case 4 => 7 case 5 => 14 case 6 => 21
      case _ => 28)
    case 4 => (match j case 0 => 35 case 1 => 42 case 2 => 49 case 3 => 56 case 4 => 57 case 5 => 50 case 6 => 43
      case _ => 36)
    case 5 => (match j case 0 => 29 case 1 => 22 case 2 => 15 case 3 => 23 case 4 => 30 case 5 => 37 case 6 => 44
      case _ => 51)
    case 6 => (match j case 0 => 58 case 1 => 59 case 2 => 52 case 3 => 45 case 4 => 38 case 5 => 31 case 6 => 39
      case _ => 46)
    case _ => (match j case 0 => 53 case 1 => 60 case 2 => 61 case 3 => 54 case 4 => 47 case 5 => 55 case 6 => 62
      case _ => 63)
  }

  /** The place of each natural index in zigzag order. */
  function ZigzagPlace(k: nat): (r: nat)
    requires k < 64
    ensures r < 64
  {
    var j := k % 8;
    match k / 8
    case 0 => (match j case 0 => 0 case 1 => 1 case 2 => 5 case 3 => 6 case 4 => 14 case 5 => 15 case 6 => 27
      case _ => 28)
    case 1 => (match j case 0 => 2 case 1 => 4 case 2 => 7 case 3 => 13 case 4 => 16 case 5 => 26 case 6 => 29
      case _ => 42)
    case 2 => (match j case 0 => 3 case 1 => 8 case 2 => 12 case 3 => 17 case 4 => 25 case 5 => 30 case 6 => 41
      case _ => 43)
    case 3 => (match j case 0 => 9 case 1 => 11 case 2 => 18 case 3 => 24 case 4 => 31 case 5 => 40 case 6 => 44
      case _ => 53)
    case 4 => (match j case 0 => 10 case 1 => 19 case 2 => 23 case 3 => 32 case 4 => 39 case 5 => 45 case 6 => 52
      case _ => 54)
    case 5 => (match j case 0 => 20 case 1 => 22 case 2 => 33 case 3 => 38 case 4 => 46 case 5 => 51 case 6 => 55
      case _ => 60)
    case 6 => (match j case 0 => 21 case 1 => 34 case 2 => 37 case 3 => 47 case 4 => 50 case 5 => 56 case 6 => 59
      case _ => 61)
    case _ => (match j case 0 => 35 case 1 => 36 case 2 => 48 case 3 => 49 case 4 => 57 case 5 => 58 case 6 => 62
      case _ => 63)
  }

  /** `t6_jpeg_qt_luma`. */
  function QtLuma(i: nat): (r: nat)
    requires i < 64
    ensures 1 <= r <= 121
  {
    var j := i % 8;
    match i / 8
    case 0 => (match j case 0 => 16 case 1 => 11 case 2 => 10 case 3 => 16 case 4 => 24 case 5 => 40 case 6 => 51
      case _ => 61)
    case 1 => (match j case 0 => 12 case 1 => 12 case 2 => 14 case 3 => 19 case 4 => 26 case 5 => 58 case 6 => 60
      case _ => 55)
    case 2 => (match j case 0 => 14 case 1 => 13 case 2 => 16 case 3 => 24 case 4 => 40 case 5 => 57 case 6 => 69
      case _ => 56)
    case 3 => (match j case 0 => 14 case 1 => 17 case 2 => 22 case 3 => 29 case 4 => 51 case 5 => 87 case 6 => 80
      case _ => 62)
    case 4 => (match j case 0 => 18 case 1 => 22 case 2 => 37 case 3 => 56 case 4 => 68 case 5 => 109 case 6 => 103
      case _ => 77)
    case 5 => (match j case 0 => 24 case 1 => 35 case 2 => 55 case 3 => 64 case 4 => 81 case 5 => 104 case 6 => 113
      case _ => 92)
    case 6 => (match j case 0 => 49 case 1 => 64 case 2 => 78 case 3 => 87 case 4 => 103 case 5 => 121 case 6 => 120
      case _ => 101)
    case _ => (match j case 0 => 72 case 1 => 92 case 2 => 95 case 3 => 98 case 4 => 112 case 5 => 100 case 6 => 103
      case _ => 99)
  }

  /** `t6_jpeg_qt_chroma`. */
  function QtChroma(i: nat): (r: nat)
    requires i < 64
    ensures 1 <= r <= 121
  {
    var j := i % 8;
    match i / 8
    case 0 => (match j case 0 => 17 case 1 => 18 case 2 => 24 case 3 => 47 case 4 => 99 case 5 => 99 case 6 => 99
      case _ => 99)
    case 1 => (match j case 0 => 18 case 1 => 21 case 2 => 26 case 3 => 66 case 4 => 99 case 5 => 99 case 6 => 99
      case _ => 99)
    case 2 => (match j case 0 => 24 case 1 => 26 case 2 => 56 case 3 => 99 case 4 => 99 case 5 => 99 case 6 => 99
      case _ => 99)
    case 3 => (match j case 0 => 47 case 1 => 66 case 2 => 99 case 3 => 99 case 4 => 99 case 5 => 99 case 6 => 99
      case _ => 99)
    case 4 => (match j case 0 => 99 case 1 => 99 case 2 => 99 case 3 => 99 case 4 => 99 case 5 => 99 case 6 => 99
      case _ => 99)
    case 5 => (match j case 0 => 99 case 1 => 99 case 2 => 99 case 3 => 99 case 4 => 99 case 5 => 99 case 6 => 99
      case _ => 99)
    case 6 => (match j case 0 => 99 case 1 => 99 case 2 => 99 case 3 => 99 case 4 => 99 case 5 => 99 case 6 => 99
      case _ => 99)
    case _ => (match j case 0 => 99 case 1 => 99 case 2 => 99 case 3 => 99 case 4 => 99 case 5 => 99 case 6 => 99
      case _ => 99)
  }

  lemma ZigzagPermutes(i: nat)
    requires i < 64
    ensures Zigzag(ZigzagPlace(i)) == i
  {
  }

  /** One step of the zigzag walk of T.81 Figure 5, from row `r` and column `c`. */
  predicate Walks(r: nat, c: nat, r': nat, c': nat) {
    if (r + c) % 2 == 0 then
      if c == 7 then r' == r + 1 && c' == c else if r == 0 then r' == 0 && c' == c + 1 else r' == r - 1 && c' == c + 1
    else
      if r == 7 then r' == r && c' == c + 1 else if c == 0 then r' == r + 1 && c' == 0 else r' == r + 1 && c' == c - 1
  }

  /** The table walks the block in zigzag, corner to corner. */
  lemma {:induction false} ZigzagWalks(i: nat)
    requires i < 63
    ensures Zigzag(0) == 0 && WalksAt(i)
  {
    if i < 16 { WalksFirst(i); } else if i < 32 { WalksSecond(i); }
    else if i < 48 { WalksThird(i); } else { WalksFourth(i); }
  }

  ghost predicate WalksAt(i: nat)
    requires i < 63
  {
    Walks(Zigzag(i) / 8, Zigzag(i) % 8, Zigzag(i + 1) / 8, Zigzag(i + 1) % 8)
  }

  lemma {:induction false} WalksFirst(i: nat)
    requires 0 <= i < 16
    ensures WalksAt(i)
  {
  }

  lemma {:induction false} WalksSecond(i: nat)
    requires 16 <= i < 32
    ensures WalksAt(i)
  {
  }

  lemma {:induction false} WalksThird(i: nat)
    requires 32 <= i < 48
    ensures WalksAt(i)
  {
  }

  lemma {:induction false} WalksFourth(i: nat)
    requires 48 <= i < 63
    ensures WalksAt(i)
  {
  }

  // ---- Kraft sums ---------------------------------------------------------

  function Count(bits: seq<byte>, len: nat): nat
    requires len <= |bits| <= 17
  {
    if len <= 1 then 0 else Count(bits, len - 1) + bits[len - 1]
  }

  function Kraft(bits: seq<byte>, len: nat): nat
    requires len <= |bits| <= 17
  {
    if len <= 1 then 0 else Kraft(bits, len - 1) + bits[len - 1] * Shl(1, Room(len - 1))
  }

  /** The Kraft sum of a histogram is the code space its codes take. */
  lemma {:induction false} BaseIsKraft(bits: seq<byte>, len: nat)
    requires len <= |bits| <= 17
    ensures |LensBelow(bits, len)| == Count(bits, len)
    ensures Base(LensBelow(bits, len), Count(bits, len)) == Kraft(bits, len)
  {
    if len > 1 {
      BaseIsKraft(bits, len - 1);
      BaseRepeat(LensBelow(bits, len - 1), len - 1, bits[len - 1]);
    }
  }

  lemma {:induction false} BaseRepeat(lens: seq<Len>, l: Len, n: nat)
    ensures Base(lens + Repeat<Len>(l, n), |lens| + n) == Base(lens, |lens|) + n * Shl(1, Room(l))
  {
    if n == 0 {
      assert lens + Repeat<Len>(l, 0) == lens;
    } else {
      BaseRepeat(lens, l, n - 1);
      BasePrefix(lens + Repeat<Len>(l, n), lens + Repeat<Len>(l, n - 1), |lens| + n - 1);
      assert (n - 1) * Shl(1, Room(l)) + Shl(1, Room(l)) == n * Shl(1, Room(l));
    }
  }

  lemma {:induction false} BasePrefix(a: seq<Len>, b: seq<Len>, k: nat)
    requires k <= |a| && k <= |b| && forall i | 0 <= i < k :: a[i] == b[i]
    ensures Base(a, k) == Base(b, k)
  {
    if k > 0 { BasePrefix(a, b, k - 1); }
  }

  lemma Powers()
    ensures Shl(1, 0) == 1 && Shl(1, 1) == 2 && Shl(1, 2) == 4 && Shl(1, 3) == 8 && Shl(1, 4) == 16
    ensures Shl(1, 5) == 32 && Shl(1, 6) == 64 && Shl(1, 7) == 128 && Shl(1, 8) == 256 && Shl(1, 9) == 512
    ensures Shl(1, 10) == 1024 && Shl(1, 11) == 2048 && Shl(1, 12) == 4096 && Shl(1, 13) == 8192
    ensures Shl(1, 14) == 16384 && Shl(1, 15) == 32768 && Shl(1, 16) == 65536
  {
  }

  /** A histogram whose counts and Kraft sum come to the right totals. */
  lemma {:induction false} Proper(bits: seq<byte>, vals: seq<byte>)
    requires |bits| == 17 && Distinct(vals)
    requires Count(bits, 17) == |vals| && Kraft(bits, 17) <= 0x1_0000
    ensures Histogram(bits, vals)
  {
    BaseIsKraft(bits, 17);
  }

  lemma {:induction false} DcLumaSpec()
    requires Distinct(DcVals())
    ensures Histogram(DcLumaBits(), DcVals())
  {
    var b := DcLumaBits();
    Powers();
    assert Count(b, 2) == 0 && Kraft(b, 2) == 0;
    assert Count(b, 3) == 1 && Kraft(b, 3) == 16384;
    assert Count(b, 4) == 6 && Kraft(b, 4) == 57344;
    assert Count(b, 5) == 7 && Kraft(b, 5) == 61440;
    assert Count(b, 6) == 8 && Kraft(b, 6) == 63488;
    assert Count(b, 7) == 9 && Kraft(b, 7) == 64512;
    assert Count(b, 8) == 10 && Kraft(b, 8) == 65024;
    assert Count(b, 9) == 11 && Kraft(b, 9) == 65280;
    assert Count(b, 10) == 12 && Kraft(b, 10) == 65408;
    assert Count(b, 11) == 12 && Kraft(b, 11) == 65408;
    assert Count(b, 12) == 12 && Kraft(b, 12) == 65408;
    assert Count(b, 13) == 12 && Kraft(b, 13) == 65408;
    assert Count(b, 14) == 12 && Kraft(b, 14) == 65408;
    assert Count(b, 15) == 12 && Kraft(b, 15) == 65408;
    assert Count(b, 16) == 12 && Kraft(b, 16) == 65408;
    assert Count(b, 17) == 12 && Kraft(b, 17) == 65408;
    Proper(b, DcVals());
  }

  lemma {:induction false} AcLumaSpec()
    requires Distinct(AcLumaVals())
    ensures Histogram(AcLumaBits(), AcLumaVals())
  {
    var b := AcLumaBits();
    Powers();
    assert Count(b, 2) == 0 && Kraft(b, 2) == 0;
    assert Count(b, 3) == 2 && Kraft(b, 3) == 32768;
    assert Count(b, 4) == 3 && Kraft(b, 4) == 40960;
    assert Count(b, 5) == 6 && Kraft(b, 5) == 53248;
    assert Count(b, 6) == 9 && Kraft(b, 6) == 59392;
    assert Count(b, 7) == 11 && Kraft(b, 7) == 61440;
    assert Count(b, 8) == 15 && Kraft(b, 8) == 63488;
    assert Count(b, 9) == 18 && Kraft(b, 9) == 64256;
    assert Count(b, 10) == 23 && Kraft(b, 10) == 64896;
    assert Count(b, 11) == 28 && Kraft(b, 11) == 65216;
    assert Count(b, 12) == 32 && Kraft(b, 12) == 65344;
    assert Count(b, 13) == 36 && Kraft(b, 13) == 65408;
    assert Count(b, 14) == 36 && Kraft(b, 14) == 65408;
    assert Count(b, 15) == 36 && Kraft(b, 15) == 65408;
    assert Count(b, 16) == 37 && Kraft(b, 16) == 65410;
    assert Count(b, 17) == 162 && Kraft(b, 17) == 65535;
    Proper(b, AcLumaVals());
  }

  lemma {:induction false} DcChromaSpec()
    requires Distinct(DcVals())
    ensures Histogram(DcChromaBits(), DcVals())
  {
    var b := DcChromaBits();
    Powers();
    assert Count(b, 2) == 0 && Kraft(b, 2) == 0;
    assert Count(b, 3) == 3 && Kraft(b, 3) == 49152;
    assert Count(b, 4) == 4 && Kraft(b, 4) == 57344;
    assert Count(b, 5) == 5 && Kraft(b, 5) == 61440;
    assert Count(b, 6) == 6 && Kraft(b, 6) == 63488;
    assert Count(b, 7) == 7 && Kraft(b, 7) == 64512;
    assert Count(b, 8) == 8 && Kraft(b, 8) == 65024;
    assert Count(b, 9) == 9 && Kraft(b, 9) == 65280;
    assert Count(b, 10) == 10 && Kraft(b, 10) == 65408;
    assert Count(b, 11) == 11 && Kraft(b, 11) == 65472;
    assert Count(b, 12) == 12 && Kraft(b, 12) == 65504;
    assert Count(b, 13) == 12 && Kraft(b, 13) == 65504;
    assert Count(b, 14) == 12 && Kraft(b, 14) == 65504;
    assert Count(b, 15) == 12 && Kraft(b, 15) == 65504;
    assert Count(b, 16) == 12 && Kraft(b, 16) == 65504;
    assert Count(b, 17) == 12 && Kraft(b, 17) == 65504;
    Proper(b, DcVals());
  }

  lemma {:induction false} AcChromaSpec()
    requires Distinct(AcChromaVals())
    ensures Histogram(AcChromaBits(), AcChromaVals())
  {
    var b := AcChromaBits();
    Powers();
    assert Count(b, 2) == 0 && Kraft(b, 2) == 0;
    assert Count(b, 3) == 2 && Kraft(b, 3) == 32768;
    assert Count(b, 4) == 3 && Kraft(b, 4) == 40960;
    assert Count(b, 5) == 5 && Kraft(b, 5) == 49152;
    assert Count(b, 6) == 9 && Kraft(b, 6) == 57344;
    assert Count(b, 7) == 13 && Kraft(b, 7) == 61440;
    assert Count(b, 8) == 16 && Kraft(b, 8) == 62976;
    assert Count(b, 9) == 20 && Kraft(b, 9) == 64000;
    assert Count(b, 10) == 27 && Kraft(b, 10) == 64896;
    assert Count(b, 11) == 32 && Kraft(b, 11) == 65216;
    assert Count(b, 12) == 36 && Kraft(b, 12) == 65344;
    assert Count(b, 13) == 40 && Kraft(b, 13) == 65408;
    assert Count(b, 14) == 40 && Kraft(b, 14) == 65408;
    assert Count(b, 15) == 41 && Kraft(b, 15) == 65412;
    assert Count(b, 16) == 43 && Kraft(b, 16) == 65416;
    assert Count(b, 17) == 162 && Kraft(b, 17) == 65535;
    Proper(b, AcChromaVals());
  }

  /** All four static specifications are proper: Kraft sum below 1, distinct and complete symbols. */
  lemma Specifications()
    ensures Histogram(DcLumaBits(), DcVals()) && Histogram(DcChromaBits(), DcVals())
    ensures Histogram(AcLumaBits(), AcLumaVals()) && Histogram(AcChromaBits(), AcChromaVals())
    ensures Complete(AcLumaVals()) && Complete(AcChromaVals())
  {
    AcLumaComplete();
    AcChromaComplete();
    DcLumaSpec();
    AcLumaSpec();
    DcChromaSpec();
    AcChromaSpec();
  }
}
