/** 32-bit words and their bits. */
module Words {
  import opened Bytes
  import opened ShiftRegister

  /** The word with only bit `i` set (zero beyond bit 31). */
  function Mask(i: nat): (r: bv32) {
    if i == 0 then 0x00000001 else if i == 1 then 0x00000002 else if i == 2 then 0x00000004
    else if i == 3 then 0x00000008 else if i == 4 then 0x00000010 else if i == 5 then 0x00000020
    else if i == 6 then 0x00000040 else if i == 7 then 0x00000080 else if i == 8 then 0x00000100
    else if i == 9 then 0x00000200 else if i == 10 then 0x00000400 else if i == 11 then 0x00000800
    else if i == 12 then 0x00001000 else if i == 13 then 0x00002000 else if i == 14 then 0x00004000
    else if i == 15 then 0x00008000 else if i == 16 then 0x00010000 else if i == 17 then 0x00020000
    else if i == 18 then 0x00040000 else if i == 19 then 0x00080000 else if i == 20 then 0x00100000
    else if i == 21 then 0x00200000 else if i == 22 then 0x00400000 else if i == 23 then 0x00800000
    else if i == 24 then 0x01000000 else if i == 25 then 0x02000000 else if i == 26 then 0x04000000
    else if i == 27 then 0x08000000 else if i == 28 then 0x10000000 else if i == 29 then 0x20000000
    else if i == 30 then 0x40000000 else if i == 31 then 0x80000000
    else 0
  }

  /** Bit `i` of a word. */
  predicate Bit(w: bv32, i: nat) {
    w & Mask(i) != 0
  }

  /** The bits of a word, least significant first. */
  function Bits(w: bv32): (r: Register)
    ensures forall i :: 0 <= i < 32 ==> r[i] == Bit(w, i)
  {
    seq(32, i requires 0 <= i < 32 => Bit(w, i))
  }

  lemma MaskNext(i: nat)
    ensures Mask(i + 1) == Mask(i) << 1
  {
  }

  lemma MaskSingle(i: nat)
    ensures Mask(i) & (Mask(i) - 1) == 0
  {
  }

  lemma MaskNonZero(i: nat)
    requires i < 32
    ensures Mask(i) != 0
  {
  }

  lemma SingleAnd(v: bv32, m: bv32)
    requires m & (m - 1) == 0
    ensures v & m == 0 || v & m == m
  {
  }

  lemma AndXor(v: bv32, w: bv32, m: bv32)
    ensures (v ^ w) & m == (v & m) ^ (w & m)
    ensures m ^ m == 0 && m ^ 0 == m && 0 ^ m == m
  {
  }

  lemma BitXor(v: bv32, w: bv32, m: bv32)
    requires m & (m - 1) == 0
    ensures (v ^ w) & m != 0 <==> (v & m != 0) != (w & m != 0)
  {
    SingleAnd(v, m);
    SingleAnd(w, m);
    AndXor(v, w, m);
  }

  lemma BitsXor(v: bv32, w: bv32)
    ensures Bits(v ^ w) == Xor(Bits(v), Bits(w))
  {
    forall i | 0 <= i < 32 ensures Bits(v ^ w)[i] == Xor(Bits(v), Bits(w))[i] {
      MaskSingle(i);
      BitXor(v, w, Mask(i));
    }
  }

  lemma BitShift(w: bv32, m: bv32, d: bv32)
    requires d == m << 1
    ensures ((w >> 1) & m != 0) == (w & d != 0)
  {
  }

  lemma ShiftedBit(w: bv32, i: nat)
    ensures Bit(w >> 1, i) == Bit(w, i + 1)
  {
    assert ((w >> 1) & Mask(i) != 0) == (w & Mask(i + 1) != 0) by {
      MaskNext(i);
      BitShift(w, Mask(i), Mask(i + 1));
    }
  }

  lemma BitsShift(w: bv32)
    ensures Bits(w >> 1) == Shift(Bits(w))
  {
    var u, v := Bits(w >> 1), Shift(Bits(w));
    forall i | 0 <= i < 32 ensures u[i] == v[i] {
      ShiftedBit(w, i);
    }
  }

  lemma WordNot(w: bv32)
    ensures !w == w ^ 0xFFFFFFFF
    ensures 0xFFFFFFFF & w == w
  {
  }

  lemma BitsOnes()
    ensures Bits(0xFFFFFFFF) == Not(Zeros(32))
  {
    forall i | 0 <= i < 32 ensures Bits(0xFFFFFFFF)[i] {
      MaskNonZero(i);
      WordNot(Mask(i));
    }
  }

  lemma BitsNot(w: bv32)
    ensures Bits(!w) == Not(Bits(w))
  {
    WordNot(w);
    BitsXor(w, 0xFFFFFFFF);
    BitsOnes();
  }

  lemma AllClear(x: bv32)
    requires x & 0x00000001 == 0 && x & 0x00000002 == 0 && x & 0x00000004 == 0 && x & 0x00000008 == 0
    requires x & 0x00000010 == 0 && x & 0x00000020 == 0 && x & 0x00000040 == 0 && x & 0x00000080 == 0
    requires x & 0x00000100 == 0 && x & 0x00000200 == 0 && x & 0x00000400 == 0 && x & 0x00000800 == 0
    requires x & 0x00001000 == 0 && x & 0x00002000 == 0 && x & 0x00004000 == 0 && x & 0x00008000 == 0
    requires x & 0x00010000 == 0 && x & 0x00020000 == 0 && x & 0x00040000 == 0 && x & 0x00080000 == 0
    requires x & 0x00100000 == 0 && x & 0x00200000 == 0 && x & 0x00400000 == 0 && x & 0x00800000 == 0
    requires x & 0x01000000 == 0 && x & 0x02000000 == 0 && x & 0x04000000 == 0 && x & 0x08000000 == 0
    requires x & 0x10000000 == 0 && x & 0x20000000 == 0 && x & 0x40000000 == 0 && x & 0x80000000 == 0
    ensures x == 0
  {
  }

  lemma XorZero(v: bv32, w: bv32)
    requires v ^ w == 0
    ensures v == w
  {
  }

  /** A word is determined by its bits. */
  lemma BitsInjective(v: bv32, w: bv32)
    requires Bits(v) == Bits(w)
    ensures v == w
  {
    BitsXor(v, w);
    var x := v ^ w;
    forall i | 0 <= i < 32 ensures !Bit(x, i) {
      assert !Bits(x)[i];
    }
    NoBits(x);
    XorZero(v, w);
  }

  lemma NoBits(x: bv32)
    requires forall i :: 0 <= i < 32 ==> !Bit(x, i)
    ensures x == 0
  {
    assert !Bit(x, 0) && !Bit(x, 1) && !Bit(x, 2) && !Bit(x, 3);
    assert !Bit(x, 4) && !Bit(x, 5) && !Bit(x, 6) && !Bit(x, 7);
    assert !Bit(x, 8) && !Bit(x, 9) && !Bit(x, 10) && !Bit(x, 11);
    assert !Bit(x, 12) && !Bit(x, 13) && !Bit(x, 14) && !Bit(x, 15);
    assert !Bit(x, 16) && !Bit(x, 17) && !Bit(x, 18) && !Bit(x, 19);
    assert !Bit(x, 20) && !Bit(x, 21) && !Bit(x, 22) && !Bit(x, 23);
    assert !Bit(x, 24) && !Bit(x, 25) && !Bit(x, 26) && !Bit(x, 27);
    assert !Bit(x, 28) && !Bit(x, 29) && !Bit(x, 30) && !Bit(x, 31);
    AllClear(x);
  }

  /** The bits of a byte, least significant first. */
  function ByteBits(b: Byte): (bits: seq<bool>)
    ensures |bits| == 8
  {
    Bits(b as bv32)[..8]
  }

  lemma HighMask(i: nat)
    requires 8 <= i
    ensures Mask(i) & 0xFF == 0
  {
  }

  lemma HighAnd(b: Byte, m: bv32)
    requires m & 0xFF == 0
    ensures (b as bv32) & m == 0
  {
  }

  lemma BitsOfByte(b: Byte)
    ensures Bits(b as bv32) == Widen(ByteBits(b))
  {
    var r := Bits(b as bv32);
    forall i | 8 <= i < 32 ensures !r[i] {
      HighMask(i);
      HighAnd(b, Mask(i));
    }
  }

  lemma SameWord(x: Byte, y: Byte)
    requires x as bv32 == y as bv32
    ensures x == y
  {
  }

  lemma ByteBitsInjective(x: Byte, y: Byte)
    requires ByteBits(x) == ByteBits(y)
    ensures x == y
  {
    BitsOfByte(x);
    BitsOfByte(y);
    BitsInjective(x as bv32, y as bv32);
    SameWord(x, y);
  }

  lemma ByteBitsXor(x: Byte, y: Byte)
    ensures ByteBits(x ^ y) == Xor(ByteBits(x), ByteBits(y))
  {
    assert (x ^ y) as bv32 == (x as bv32) ^ (y as bv32);
    BitsXor(x as bv32, y as bv32);
  }

  /** The bits of a stream, byte after byte, least significant bit first. */
  function StreamBits(data: seq<Byte>): (bits: seq<bool>)
    ensures |bits| == 8 * |data|
  {
    if data == [] then [] else StreamBits(data[..|data| - 1]) + ByteBits(data[|data| - 1])
  }

  lemma {:induction false} StreamBitsAppend(a: seq<Byte>, b: seq<Byte>)
    ensures StreamBits(a + b) == StreamBits(a) + StreamBits(b)
  {
    if b == [] {
      assert a + b == a;
    } else {
      var init := b[..|b| - 1];
      assert (a + b)[..|a + b| - 1] == a + init;
      StreamBitsAppend(a, init);
    }
  }

  lemma {:induction false} StreamBitsInjective(a: seq<Byte>, b: seq<Byte>)
    requires |a| == |b| && StreamBits(a) == StreamBits(b)
    ensures a == b
  {
    if a != [] {
      var n := |a| - 1;
      assert StreamBits(a[..n]) == StreamBits(a)[..8 * n];
      assert StreamBits(b[..n]) == StreamBits(b)[..8 * n];
      StreamBitsInjective(a[..n], b[..n]);
      assert ByteBits(a[n]) == StreamBits(a)[8 * n..] && ByteBits(b[n]) == StreamBits(b)[8 * n..];
      ByteBitsInjective(a[n], b[n]);
      assert a == a[..n] + [a[n]] && b == b[..n] + [b[n]];
    }
  }

  function XorBytes(a: seq<Byte>, b: seq<Byte>): (r: seq<Byte>)
    requires |a| == |b|
    ensures |r| == |a| && forall i :: 0 <= i < |r| ==> r[i] == a[i] ^ b[i]
  {
    seq(|a|, i requires 0 <= i < |a| => a[i] ^ b[i])
  }

  lemma {:induction false} StreamBitsXor(a: seq<Byte>, b: seq<Byte>)
    requires |a| == |b|
    ensures StreamBits(XorBytes(a, b)) == Xor(StreamBits(a), StreamBits(b))
  {
    if a != [] {
      var n := |a| - 1;
      StreamBitsXor(a[..n], b[..n]);
      ByteBitsXor(a[n], b[n]);
      assert XorBytes(a, b)[..n] == XorBytes(a[..n], b[..n]);
      XorAppend(StreamBits(a[..n]), StreamBits(b[..n]), ByteBits(a[n]), ByteBits(b[n]));
    }
  }

  lemma XorAppend(a: seq<bool>, b: seq<bool>, x: seq<bool>, y: seq<bool>)
    requires |a| == |b| && |x| == |y|
    ensures Xor(a + x, b + y) == Xor(a, b) + Xor(x, y)
  {
  }

  // ---- Words as four bytes ----

  /** The word of four bytes, the first the least significant. */
  function Assemble(a: Byte, b: Byte, c: Byte, d: Byte): (w: bv32) {
    (a as bv32) | ((b as bv32) << 8) | ((c as bv32) << 16) | ((d as bv32) << 24)
  }

  /** The little-endian word at `offset`. */
  function Decode(data: seq<Byte>, offset: nat): (r: bv32)
    requires offset + 4 <= |data|
  {
    Assemble(data[offset], data[offset + 1], data[offset + 2], data[offset + 3])
  }

  lemma SameDecode(x: seq<Byte>, m: nat, y: seq<Byte>, n: nat)
    requires m + 4 <= |x| && n + 4 <= |y| && x[m..m + 4] == y[n..n + 4]
    ensures Decode(x, m) == Decode(y, n)
  {
    hide Assemble;
    var u, v := x[m..m + 4], y[n..n + 4];
    assert u[0] == x[m] && u[1] == x[m + 1] && u[2] == x[m + 2] && u[3] == x[m + 3];
    assert v[0] == y[n] && v[1] == y[n + 1] && v[2] == y[n + 2] && v[3] == y[n + 3];
  }

  function Low8(w: bv32): (r: Byte) { (w & 0xFF) as bv8 }

  function Drop8(w: bv32): (r: bv32) { w >> 8 }

  /** The bytes of a word in little-endian memory. */
  function Encode(w: bv32): (data: seq<Byte>)
    ensures |data| == 4
  {
    [Low8(w), Low8(Drop8(w)), Low8(Drop8(Drop8(w))), Low8(Drop8(Drop8(Drop8(w))))]
  }

  lemma DecodeEncode(w: bv32)
    ensures Decode(Encode(w), 0) == w
  {
  }

  lemma JoinedBytes(a: Byte, b: Byte, c: Byte, d: Byte, w: bv32)
    requires w == (a as bv32) | ((b as bv32) << 8) | ((c as bv32) << 16) | ((d as bv32) << 24)
    ensures (w & 0xFF) as bv8 == a && ((w >> 8) & 0xFF) as bv8 == b
    ensures ((w >> 16) & 0xFF) as bv8 == c && (w >> 24) as bv8 == d
  {
  }

  lemma JoinedInjective(a: Byte, b: Byte, c: Byte, d: Byte, e: Byte, f: Byte, g: Byte, h: Byte)
    requires (a as bv32) | ((b as bv32) << 8) | ((c as bv32) << 16) | ((d as bv32) << 24)
          == (e as bv32) | ((f as bv32) << 8) | ((g as bv32) << 16) | ((h as bv32) << 24)
    ensures a == e && b == f && c == g && d == h
  {
    var w := (a as bv32) | ((b as bv32) << 8) | ((c as bv32) << 16) | ((d as bv32) << 24);
    assert a == e && b == f by {
      JoinedBytes(a, b, c, d, w);
      JoinedBytes(e, f, g, h, w);
    }
    assert c == g && d == h by {
      JoinedBytes(a, b, c, d, w);
      JoinedBytes(e, f, g, h, w);
    }
  }

  /** Different bytes make different words. */
  lemma DecodeInjective(a: seq<Byte>, b: seq<Byte>)
    requires |a| == |b| == 4 && Decode(a, 0) == Decode(b, 0)
    ensures a == b
  {
    assert a[0] == b[0] && a[1] == b[1] && a[2] == b[2] && a[3] == b[3] by {
      JoinedInjective(a[0], a[1], a[2], a[3], b[0], b[1], b[2], b[3]);
    }
  }

  lemma EncodeDecode(data: seq<Byte>)
    requires |data| == 4
    ensures Encode(Decode(data, 0)) == data
  {
    DecodeEncode(Decode(data, 0));
    DecodeInjective(Encode(Decode(data, 0)), data);
  }

  /** The word with a given value. */
  function WordOf(n: nat): (w: bv32)
    requires n < 0x1_0000_0000
  {
    Decode(NumberBytes(n), 0)
  }

  lemma MaskLow(j: nat)
    requires j < 8
    ensures Mask(j) & 0xFF == Mask(j)
  {
  }

  lemma LowAnd(x: bv32, y: bv32, m: bv32)
    requires x & 0xFF == y & 0xFF && m & 0xFF == m
    ensures x & m == y & m
  {
  }

  lemma LowBit(x: bv32, y: bv32, i: nat)
    requires x & 0xFF == y & 0xFF && i < 8
    ensures Bit(x, i) == Bit(y, i)
  {
    assert x & Mask(i) == y & Mask(i) by {
      MaskLow(i);
      LowAnd(x, y, Mask(i));
    }
  }

  lemma LowOctet(x: bv32, y: bv32)
    requires x & 0xFF == y & 0xFF
    ensures Bits(x)[..8] == Bits(y)[..8]
  {
    var u, v := Bits(x), Bits(y);
    forall i | 0 <= i < 8 ensures u[i] == v[i] {
      LowBit(x, y, i);
    }
  }

  lemma ByteLow(b: Byte, x: bv32)
    requires (b as bv32) & 0xFF == x & 0xFF
    ensures ByteBits(b) == Bits(x)[..8]
  {
    LowOctet(b as bv32, x);
  }

  lemma DropTwice(r: Register, s: Register, t: Register, m: nat, n: nat)
    requires m + n <= 32 && s == r[m..] + Zeros(m) && t == s[n..] + Zeros(n)
    ensures t == r[m + n..] + Zeros(m + n)
  {
  }

  /** One place down, named so that proofs about registers see no shift. */
  function Half(w: bv32): (r: bv32) { w >> 1 }

  lemma HalfBits(w: bv32)
    ensures Bits(Half(w)) == Bits(w)[1..] + Zeros(1)
  {
    BitsShift(w);
  }

  lemma {:induction false} HalfTwice(w: bv32)
    ensures Bits(Half(Half(w))) == Bits(w)[2..] + Zeros(2)
  {
    hide Bits, Half;
    HalfBits(w);
    HalfBits(Half(w));
    DropTwice(Bits(w), Bits(Half(w)), Bits(Half(Half(w))), 1, 1);
  }

  lemma HalfFour(w: bv32, y: bv32)
    requires y == Half(Half(Half(Half(w))))
    ensures Bits(y) == Bits(w)[4..] + Zeros(4)
  {
    hide Bits, Half;
    var x := Half(Half(w));
    HalfTwice(w);
    HalfTwice(x);
    DropTwice(Bits(w), Bits(x), Bits(y), 2, 2);
  }

  lemma HalfEight(w: bv32)
    ensures Drop8(w) == Half(Half(Half(Half(Half(Half(Half(Half(w))))))))
  {
  }

  lemma Drop8Bits(w: bv32)
    ensures Bits(Drop8(w)) == Bits(w)[8..] + Zeros(8)
  {
    hide Bits, Half, Drop8;
    var x := Half(Half(Half(Half(w))));
    HalfEight(w);
    HalfFour(w, x);
    HalfFour(x, Drop8(w));
    DropTwice(Bits(w), Bits(x), Bits(Drop8(w)), 4, 4);
  }

  lemma StreamBitsSnoc(data: seq<Byte>, b: Byte)
    ensures StreamBits(data + [b]) == StreamBits(data) + ByteBits(b)
  {
    assert (data + [b])[..|data|] == data;
  }

  lemma StreamBitsTwo(a: Byte, b: Byte)
    ensures StreamBits([a, b]) == ByteBits(a) + ByteBits(b)
  {
    hide ByteBits;
    StreamBitsSnoc([], a);
    StreamBitsSnoc([a], b);
    assert [] + [a] == [a] && [a] + [b] == [a, b];
  }

  lemma StreamBitsFour(a: Byte, b: Byte, c: Byte, d: Byte)
    ensures StreamBits([a, b, c, d]) == ByteBits(a) + ByteBits(b) + (ByteBits(c) + ByteBits(d))
  {
    hide ByteBits, StreamBits;
    StreamBitsTwo(a, b);
    StreamBitsTwo(c, d);
    StreamBitsAppend([a, b], [c, d]);
    assert [a, b] + [c, d] == [a, b, c, d];
  }

  lemma LowOctetOf(w: bv32)
    ensures ((w & 0xFF) as bv8) as bv32 & 0xFF == w & 0xFF
  {
  }

  lemma Low8Bits(w: bv32)
    ensures ByteBits(Low8(w)) == Bits(w)[..8]
  {
    hide Bits, ByteBits;
    LowOctetOf(w);
    ByteLow(Low8(w), w);
  }

  lemma OctetsOfBits(w: bv32, x: bv32, y: bv32, z: bv32)
    requires x == Drop8(w) && y == Drop8(x) && z == Drop8(y)
    ensures Bits(w)[8..16] == Bits(x)[..8]
    ensures Bits(w)[16..24] == Bits(y)[..8]
    ensures Bits(w)[24..] == Bits(z)[..8]
  {
    hide Bits, Drop8;
    Drop8Bits(w);
    Drop8Bits(x);
    Drop8Bits(y);
    DropTwice(Bits(w), Bits(x), Bits(y), 8, 8);
    DropTwice(Bits(w), Bits(y), Bits(z), 16, 8);
  }

  /** The bits of an encoded word are the bits of the word. */
  lemma EncodeBits(w: bv32)
    ensures StreamBits(Encode(w)) == Bits(w)
  {
    hide Bits, ByteBits, Low8, Drop8, StreamBits;
    var e := Encode(w);
    var x := Drop8(w);
    var y := Drop8(x);
    var z := Drop8(y);
    Low8Bits(w);
    Low8Bits(x);
    Low8Bits(y);
    Low8Bits(z);
    OctetsOfBits(w, x, y, z);
    StreamBitsFour(e[0], e[1], e[2], e[3]);
    FourOctets(Bits(w), ByteBits(e[0]), ByteBits(e[1]), ByteBits(e[2]), ByteBits(e[3]));
  }

  lemma FourOctets(u: seq<bool>, x: seq<bool>, y: seq<bool>, z: seq<bool>, t: seq<bool>)
    requires |u| == 32 && |x| == |y| == |z| == |t| == 8
    requires u[..8] == x && u[8..16] == y && u[16..24] == z && u[24..] == t
    ensures u == x + y + (z + t)
  {
  }

  /** The bits of a decoded word are the bits of its bytes. */
  lemma DecodeBits(data: seq<Byte>)
    requires |data| == 4
    ensures Bits(Decode(data, 0)) == StreamBits(data)
  {
    EncodeDecode(data);
    EncodeBits(Decode(data, 0));
  }
}
