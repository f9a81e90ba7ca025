/** The CRC-32 checksum: the bitwise streaming update, its table form (section 8 of RFC 1952),
    linearity over GF(2), detection of every burst of up to 32 bits, and the residue law.
    Digests are given by their bits; `Bits` connects them to the words the program computes. */
module Crc32 {
  import opened Bytes
  import opened ShiftRegister
  import opened Words

  const POLYNOMIAL: Register := Bits(0xEDB88320)

  /** One byte: added to the low bits of the register, which is then shifted eight times. */
  function AbsorbByte(p: Register, r: Register, b: Byte): (next: Register) {
    Steps(p, 8, Xor(r, Widen(ByteBits(b))))
  }

  function Fold(p: Register, r: Register, data: seq<Byte>): (next: Register) {
    if data == [] then r else AbsorbByte(p, Fold(p, r, data[..|data| - 1]), data[|data| - 1])
  }

  /** The digest after feeding `data` to a checksum holding `digest`. */
  function Update(digest: Register, data: seq<Byte>): (r: Register) {
    Not(Fold(POLYNOMIAL, Not(digest), data))
  }

  // ---- Streaming ----

  /** Absorbing bytes eight shifts at a time is absorbing their bits one at a time. */
  lemma {:induction false} FoldBits(p: Register, r: Register, data: seq<Byte>)
    ensures Fold(p, r, data) == Absorb(p, r, StreamBits(data))
  {
    if data != [] {
      var init, last := data[..|data| - 1], data[|data| - 1];
      FoldBits(p, r, init);
      AbsorbAppend(p, r, StreamBits(init), ByteBits(last));
      Window(p, Fold(p, r, init), ByteBits(last));
    }
  }

  lemma UpdateBits(digest: Register, data: seq<Byte>)
    ensures Update(digest, data) == Not(Absorb(POLYNOMIAL, Not(digest), StreamBits(data)))
  {
    FoldBits(POLYNOMIAL, Not(digest), data);
  }

  lemma UpdateAppend(digest: Register, a: seq<Byte>, b: seq<Byte>)
    ensures Update(digest, a + b) == Update(Update(digest, a), b)
  {
    UpdateBits(digest, a);
    UpdateBits(digest, a + b);
    UpdateBits(Update(digest, a), b);
    StreamBitsAppend(a, b);
    AbsorbAppend(POLYNOMIAL, Not(digest), StreamBits(a), StreamBits(b));
    NotNot(Absorb(POLYNOMIAL, Not(digest), StreamBits(a)));
  }

  lemma UpdateNothing(digest: Register)
    ensures Update(digest, []) == digest
  {
    NotNot(digest);
  }

  /** The digest after a series of updates. */
  function UpdateAll(digest: Register, chunks: seq<seq<Byte>>): (r: Register) {
    if chunks == [] then digest
    else Update(UpdateAll(digest, chunks[..|chunks| - 1]), chunks[|chunks| - 1])
  }

  /** The digest depends only on the bytes, never on how they were cut. */
  lemma {:induction false} ChunkIndependent(digest: Register, chunks: seq<seq<Byte>>)
    ensures UpdateAll(digest, chunks) == Update(digest, Concat(chunks))
  {
    if chunks == [] {
      UpdateNothing(digest);
    } else {
      var init := chunks[..|chunks| - 1];
      ChunkIndependent(digest, init);
      UpdateAppend(digest, Concat(init), chunks[|chunks| - 1]);
    }
  }

  // ---- Linearity ----

  /** CRC-32 is affine over GF(2): the digests of three equally long streams add up to the
      digest of their bytewise sum. */
  lemma Affine(d: Register, e: Register, f: Register, a: seq<Byte>, b: seq<Byte>, c: seq<Byte>)
    requires |a| == |b| == |c|
    ensures Xor(Xor(Update(d, a), Update(e, b)), Update(f, c))
         == Update(Xor(Xor(d, e), f), XorBytes(XorBytes(a, b), c))
  {
    var p, ab := POLYNOMIAL, XorBytes(a, b);
    UpdateBits(d, a);
    UpdateBits(e, b);
    UpdateBits(f, c);
    UpdateBits(Xor(Xor(d, e), f), XorBytes(ab, c));
    StreamBitsXor(a, b);
    StreamBitsXor(ab, c);
    AbsorbXor(p, Not(d), Not(e), StreamBits(a), StreamBits(b));
    AbsorbXor(p, Xor(Not(d), Not(e)), Not(f), StreamBits(ab), StreamBits(c));
    NotXor(d, e, f);
    XorNot(Absorb(p, Not(d), StreamBits(a)), Absorb(p, Not(e), StreamBits(b)),
           Absorb(p, Not(f), StreamBits(c)));
  }

  lemma NotXor(d: Register, e: Register, f: Register)
    ensures Not(Xor(Xor(d, e), f)) == Xor(Xor(Not(d), Not(e)), Not(f))
  {
  }

  lemma XorNot(a: Register, b: Register, c: Register)
    ensures Xor(Xor(Not(a), Not(b)), Not(c)) == Not(Xor(Xor(a, b), c))
  {
  }

  // ---- Burst detection ----

  lemma PolynomialTop()
    ensures POLYNOMIAL[31]
  {
  }

  /** Every burst of up to 32 consecutive bits, at any alignment and in streams of any length,
      changes the digest. */
  lemma BurstDetected(digest: Register, a: seq<Byte>, b: seq<Byte>, lo: nat, hi: nat)
    requires |a| == |b| && lo <= hi <= 8 * |a| && hi - lo <= 32
    requires StreamBits(a)[..lo] == StreamBits(b)[..lo]
    requires StreamBits(a)[hi..] == StreamBits(b)[hi..]
    ensures Update(digest, a) == Update(digest, b) <==> a == b
  {
    if Update(digest, a) == Update(digest, b) {
      var p, r := POLYNOMIAL, Not(digest);
      UpdateBits(digest, a);
      UpdateBits(digest, b);
      NotInjective(Absorb(p, r, StreamBits(a)), Absorb(p, r, StreamBits(b)));
      PolynomialTop();
      Burst(p, r, StreamBits(a), StreamBits(b), lo, hi);
      StreamBitsInjective(a, b);
    }
  }

  lemma BitsAround(p: seq<Byte>, u: seq<Byte>, q: seq<Byte>)
    ensures StreamBits(p + u + q)[..8 * |p|] == StreamBits(p)
    ensures StreamBits(p + u + q)[8 * (|p| + |u|)..] == StreamBits(q)
  {
    StreamBitsAppend(p + u, q);
    StreamBitsAppend(p, u);
  }

  /** In particular, any change confined to four consecutive bytes is detected. */
  lemma FourByteBurst(digest: Register, p: seq<Byte>, u: seq<Byte>, v: seq<Byte>, q: seq<Byte>)
    requires |u| == |v| <= 4 && u != v
    ensures Update(digest, p + u + q) != Update(digest, p + v + q)
  {
    BitsAround(p, u, q);
    BitsAround(p, v, q);
    BurstDetected(digest, p + u + q, p + v + q, 8 * |p|, 8 * (|p| + |u|));
    assert (p + u + q)[|p|..|p| + |u|] == u && (p + v + q)[|p|..|p| + |u|] == v;
  }

  // ---- The table form ----

  /** Entry of the 256-entry table of section 8 of RFC 1952: eight shifts of the index. */
  function Table(p: Register, index: seq<bool>): (r: Register)
    requires |index| == 8
  {
    Steps(p, 8, Widen(index))
  }

  /** One table-driven byte: the entry at the low byte of the register plus the data byte,
      added to the register moved down by eight bits. */
  function TableAbsorb(p: Register, r: Register, b: Byte): (next: Register) {
    Xor(Table(p, Xor(r[..8], ByteBits(b))), r[8..] + Zeros(8))
  }

  function TableFold(p: Register, r: Register, data: seq<Byte>): (next: Register) {
    if data == [] then r
    else TableAbsorb(p, TableFold(p, r, data[..|data| - 1]), data[|data| - 1])
  }

  lemma TableOctet(p: Register, r: Register, octet: seq<bool>)
    requires |octet| == 8
    ensures Steps(p, 8, Xor(r, Widen(octet)))
         == Xor(Table(p, Xor(r[..8], octet)), r[8..] + Zeros(8))
  {
    var low := Xor(r[..8], octet);
    var high: Register := Zeros(8) + r[8..];
    assert Xor(r, Widen(octet)) == Xor(Widen(low), high);
    StepsXor(p, 8, Widen(low), high);
    StepsOfZeros(p, 8, r[8..]);
  }

  lemma {:induction false} TableFolds(p: Register, r: Register, data: seq<Byte>)
    ensures Fold(p, r, data) == TableFold(p, r, data)
  {
    if data != [] {
      TableFolds(p, r, data[..|data| - 1]);
      TableOctet(p, Fold(p, r, data[..|data| - 1]), ByteBits(data[|data| - 1]));
    }
  }

  /** The bitwise loop computes what the table-driven loop computes, on every stream and from
      every start digest. */
  lemma TableForm(digest: Register, data: seq<Byte>)
    ensures Update(digest, data) == Not(TableFold(POLYNOMIAL, Not(digest), data))
  {
    TableFolds(POLYNOMIAL, Not(digest), data);
  }

  // ---- The residue ----

  /** One shift as the program computes it on words. */
  function StepWord(w: bv32): (r: bv32) {
    if w & 1 != 0 then (w >> 1) ^ 0xEDB88320 else w >> 1
  }

  lemma BitsStep(w: bv32)
    ensures Bits(StepWord(w)) == Step(POLYNOMIAL, Bits(w))
  {
    BitsShift(w);
    BitsXor(w >> 1, 0xEDB88320);
  }

  function StepsWord(n: nat, w: bv32): (r: bv32) {
    if n == 0 then w else StepsWord(n - 1, StepWord(w))
  }

  lemma {:induction false} BitsSteps(n: nat, w: bv32)
    ensures Bits(StepsWord(n, w)) == Steps(POLYNOMIAL, n, Bits(w))
  {
    if n > 0 {
      BitsStep(w);
      BitsSteps(n - 1, StepWord(w));
    }
  }

  const RESIDUE: bv32 := 0x2144DF1C

  lemma FourSteps(n: nat, w: bv32, x: bv32)
    requires n >= 4 && x == StepWord(StepWord(StepWord(StepWord(w))))
    ensures StepsWord(n, w) == StepsWord(n - 4, x)
  {
    hide StepWord;
    var v := StepWord(StepWord(w));
    assert StepsWord(n - 2, v) == StepsWord(n - 4, x);
  }

  lemma ResidueWords()
    ensures StepsWord(32, 0xFFFFFFFF) == !RESIDUE
  {
    hide StepsWord;
    FourSteps(32, 0xFFFFFFFF, 0xB2420DE3);
    FourSteps(28, 0xB2420DE3, 0x2DFD1072);
    FourSteps(24, 0x2DFD1072, 0x39B1F1CF);
    FourSteps(20, 0x39B1F1CF, 0xBE26ED00);
    FourSteps(16, 0xBE26ED00, 0x0BE26ED0);
    FourSteps(12, 0x0BE26ED0, 0x00BE26ED);
    FourSteps(8, 0x00BE26ED, 0x86D830BA);
    FourSteps(4, 0x86D830BA, 0xDEBB20E3);
    NoSteps(0xDEBB20E3);
  }

  lemma NoSteps(w: bv32)
    ensures StepsWord(0, w) == w
  {
  }

  lemma ResidueValue()
    ensures Not(Steps(POLYNOMIAL, 32, Not(Zeros(32)))) == Bits(RESIDUE)
  {
    BitsOnes();
    BitsSteps(32, 0xFFFFFFFF);
    ResidueWords();
    BitsNot(RESIDUE);
    NotNot(Bits(RESIDUE));
  }

  lemma OnesRegister(r: Register, t: Register)
    ensures Xor(r, t) == Not(Zeros(32)) <==> t == Not(r)
  {
    if Xor(r, t) == Not(Zeros(32)) {
      forall i | 0 <= i < 32 ensures t[i] == Not(r)[i] {
        assert Xor(r, t)[i] == Not(Zeros(32))[i];
      }
    }
  }

  lemma ResidueRegister(p: Register, r: Register, t: Register)
    requires p[31]
    ensures Not(Steps(p, 32, Xor(r, t))) == Not(Steps(p, 32, Not(Zeros(32)))) <==> t == Not(r)
  {
    var ones: Register := Not(Zeros(32));
    OnesRegister(r, t);
    if Not(Steps(p, 32, Xor(r, t))) == Not(Steps(p, 32, ones)) {
      NotInjective(Steps(p, 32, Xor(r, t)), Steps(p, 32, ones));
      StepsInjective(p, 32, Xor(r, t), ones);
    }
  }

  /** Appending four bytes to a stream gives the digest 0x2144DF1C exactly when they are the
      little-endian digest of the stream, whatever the stream and the start digest. */
  lemma Residue(digest: Register, m: seq<Byte>, trailer: seq<Byte>)
    requires |trailer| == 4
    ensures Update(digest, m + trailer) == Bits(RESIDUE)
       <==> StreamBits(trailer) == Update(digest, m)
  {
    var p, r := POLYNOMIAL, Absorb(POLYNOMIAL, Not(digest), StreamBits(m));
    var t: Register := StreamBits(trailer);
    UpdateBits(digest, m);
    UpdateBits(digest, m + trailer);
    StreamBitsAppend(m, trailer);
    AbsorbAppend(p, Not(digest), StreamBits(m), t);
    Window(p, r, t);
    assert Widen(t) == t;
    PolynomialTop();
    ResidueRegister(p, r, t);
    ResidueValue();
  }

  /** The digest of "a". */
  lemma KnownDigest()
    ensures Update(Bits(0), [0x61]) == Bits(0xE8B7BE43)
  {
    hide Bits, Fold, ByteBits, Steps;
    KnownComplements();
    KnownInput();
    KnownSteps();
    OneByte(POLYNOMIAL, Not(Bits(0)), 0x61);
    NotNot(Bits(0xE8B7BE43));
  }

  lemma KnownComplements()
    ensures Not(Bits(0)) == Bits(0xFFFFFFFF) && Not(Bits(0xE8B7BE43)) == Bits(0x174841BC)
  {
    hide Bits;
    BitsNot(0);
    BitsNot(0xE8B7BE43);
  }

  lemma KnownInput()
    ensures Xor(Bits(0xFFFFFFFF), Widen(ByteBits(0x61))) == Bits(0xFFFFFF9E)
  {
    hide Bits, ByteBits;
    BitsXor(0xFFFFFFFF, 0x00000061);
    BitsOfByte(0x61);
  }

  lemma KnownSteps()
    ensures Steps(POLYNOMIAL, 8, Bits(0xFFFFFF9E)) == Bits(0x174841BC)
  {
    hide StepsWord, Bits, Steps;
    FourSteps(8, 0xFFFFFF9E, 0xAFF51D81);
    FourSteps(4, 0xAFF51D81, 0x174841BC);
    NoSteps(0x174841BC);
    BitsSteps(8, 0xFFFFFF9E);
  }

  lemma OneByte(p: Register, r: Register, b: Byte)
    ensures Fold(p, r, [b]) == AbsorbByte(p, r, b)
  {
    assert Fold(p, r, []) == r;
  }

  // ---- The mutable checksum ----

  class ChecksumCrc32 {
    var value: bv32

    constructor (digest: bv32)
      ensures value == digest
    {
      value := digest;
    }

    method Reset()
      modifies this
      ensures value == 0
    {
      value := 0;
    }

    method UpdateBytes(data: seq<Byte>)
      modifies this
      ensures Bits(value) == Update(old(Bits(value)), data)
    {
      var result := !value;
      BitsNot(value);
      ghost var start := Bits(result);
      for i := 0 to |data|
        invariant value == old(value)
        invariant Bits(result) == Fold(POLYNOMIAL, start, data[..i])
      {
        result := AbsorbWord(result, data[i]);
        FoldSnoc(POLYNOMIAL, start, data, i);
      }
      assert data[..|data|] == data;
      value := !result;
      BitsNot(result);
    }

    /** Feeding a segmented buffer is the same as feeding its leading `size` bytes flat. */
    method UpdateBlob(data: Blob, size: nat)
      requires data.Valid()
      modifies this
      ensures Bits(value) == Update(old(Bits(value)), data.Prefix(size))
    {
      hide Update, Bits, Blob.Prefix, Blob.Contents;
      data.PrefixNone();
      ghost var start := Bits(value);
      UpdateNothing(start);
      if size == 0 {
        return;
      }
      var numBytesRemaining := size;
      for i := 0 to data.numDataBuffers
        invariant |data.DataUpTo(i)| < size && numBytesRemaining == size - |data.DataUpTo(i)|
        invariant Bits(value) == Update(start, data.DataUpTo(i))
      {
        var bufferSize := data.DataSize(i);
        var numBytesToUpdate, done := bufferSize, false;
        if bufferSize < numBytesRemaining {
          numBytesRemaining := numBytesRemaining - bufferSize;
        } else {
          numBytesToUpdate, numBytesRemaining, done := numBytesRemaining, 0, true;
        }
        var chunk := data.buffers[i][..numBytesToUpdate];
        UpdateAppend(start, data.DataUpTo(i), chunk);
        UpdateBytes(chunk);
        if done {
          data.PrefixEndsInBuffer(i, size);
          return;
        }
      }
      data.PrefixIsAll(size);
    }
  }

  lemma FoldSnoc(p: Register, r: Register, data: seq<Byte>, i: nat)
    requires i < |data|
    ensures Fold(p, r, data[..i + 1]) == AbsorbByte(p, Fold(p, r, data[..i]), data[i])
  {
    assert data[..i + 1][..i] == data[..i];
  }

  /** The inner loop: one byte, eight shifts. */
  method AbsorbWord(word: bv32, byte: Byte) returns (result: bv32)
    ensures Bits(result) == AbsorbByte(POLYNOMIAL, Bits(word), byte)
  {
    result := word ^ (byte as bv32);
    BitsXor(word, byte as bv32);
    BitsOfByte(byte);
    ghost var total := AbsorbByte(POLYNOMIAL, Bits(word), byte);
    for i := 0 to 8
      invariant Remaining(8 - i, Bits(result), total)
    {
      BitsStep(result);
      RemainingNext(8 - i, Bits(result), total);
      result := StepWord(result);
    }
  }

  /** `n` more shifts of `r` give `total`. */
  ghost predicate Remaining(n: nat, r: Register, total: Register) {
    Steps(POLYNOMIAL, n, r) == total
  }

  lemma RemainingNext(n: nat, r: Register, total: Register)
    requires n > 0 && Remaining(n, r, total)
    ensures Remaining(n - 1, Step(POLYNOMIAL, r), total)
  {
  }
}
