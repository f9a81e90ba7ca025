/** The 16-byte-block checksum of `ChecksumXxHash32`, as the program computes it: the whole
    state is a function of the bytes fed so far, and the digest reacts to every change in one
    unit of the unprocessed tail.

    The block round reads only the first word of each 16-byte block, in all four lanes; this
    model follows the program and makes no claim about the published XXH32 algorithm. */
module XxHash32 {
  import opened Bytes
  import opened Words
  import opened WordValues

  const P1: bv32 := 0x9E3779B1
  const P2: bv32 := 0x85EBCA77
  const P5: bv32 := 0x165667B1

  // ---- Wrap-around operations on 32-bit words ----

  function TimesP1(x: bv32): (r: bv32) { Product(x, 0x9E3779B1) }

  function TimesP2(x: bv32): (r: bv32) { Product(x, 0x85EBCA77) }

  function TimesP3(x: bv32): (r: bv32) { Product(x, 0xC2B2AE3D) }

  function TimesP4(x: bv32): (r: bv32) { Product(x, 0x27D4EB2F) }

  function TimesP5(x: bv32): (r: bv32) { Product(x, 0x165667B1) }

  function Fold15(x: bv32): (r: bv32) { x ^ (x >> 15) }

  function Fold13(x: bv32): (r: bv32) { x ^ (x >> 13) }

  function Fold16(x: bv32): (r: bv32) { x ^ (x >> 16) }

  // `rotate`, one function for each of the amounts it is called with.

  function Rotate1(x: bv32): (r: bv32) { (x << 1) | (x >> 31) }

  function Rotate7(x: bv32): (r: bv32) { (x << 7) | (x >> 25) }

  function Rotate11(x: bv32): (r: bv32) { (x << 11) | (x >> 21) }

  function Rotate12(x: bv32): (r: bv32) { (x << 12) | (x >> 20) }

  function Rotate13(x: bv32): (r: bv32) { (x << 13) | (x >> 19) }

  function Rotate17(x: bv32): (r: bv32) { (x << 17) | (x >> 15) }

  function Rotate18(x: bv32): (r: bv32) { (x << 18) | (x >> 14) }

  function Round(accumulator: bv32, next: bv32): (r: bv32) {
    TimesP1(Rotate13(Sum(accumulator, TimesP2(next))))
  }

  // ---- The state as a function of the stream ----

  /** The accumulator after absorbing one word per block. */
  function Absorb(accumulator: bv32, words: seq<bv32>): (r: bv32) {
    if words == [] then accumulator
    else Round(Absorb(accumulator, words[..|words| - 1]), words[|words| - 1])
  }

  /** The first word of every complete 16-byte block. */
  function BlockWords(stream: seq<Byte>): (words: seq<bv32>)
    ensures |words| == |stream| / 16
    ensures forall k :: 0 <= k < |words| ==> words[k] == Decode(stream, 16 * k)
  {
    seq(|stream| / 16, k requires 0 <= k < |stream| / 16 => Decode(stream, 16 * k))
  }

  /** The start values of the four accumulators. */
  function Start(seed: bv32): (lanes: seq<bv32>)
    ensures |lanes| == 4
  {
    [Sum(Sum(seed, P1), P2), Sum(seed, P2), seed, Difference(seed, P1)]
  }

  function Lanes(seed: bv32, stream: seq<Byte>): (lanes: seq<bv32>)
    ensures |lanes| == 4
  {
    seq(4, i requires 0 <= i < 4 => Absorb(Start(seed)[i], BlockWords(stream)))
  }

  /** The latest byte at a stream position congruent to `i` modulo 16, zero if there is none. */
  function Latest(stream: seq<Byte>, i: nat): (r: Byte)
    requires i < 16
  {
    if |stream| <= i then 0 else stream[i + (|stream| - 1 - i) / 16 * 16]
  }

  /** `Latest` is the byte at the last position congruent to `i`. */
  lemma LatestIsLast(stream: seq<Byte>, i: nat, j: nat)
    requires i < 16 && j < |stream| <= j + 16 && j % 16 == i
    ensures Latest(stream, i) == stream[j]
  {
    assert (|stream| - 1 - i) / 16 * 16 == j - i;
  }

  function Buffered(stream: seq<Byte>): (buffer: seq<Byte>)
    ensures |buffer| == 16
    ensures forall i :: 0 <= i < 16 ==> buffer[i] == Latest(stream, i)
  {
    seq(16, i requires 0 <= i < 16 => Latest(stream, i))
  }

  /** Everything a checksum object holds. */
  datatype State = State(accumulator: seq<bv32>, buffer: seq<Byte>, bufferSize: nat,
                         entireSize: nat, full: bool)

  /** The state of a checksum seeded with `seed` that has been fed `stream`. */
  function StateOf(seed: bv32, stream: seq<Byte>): (r: State) {
    State(Lanes(seed, stream), Buffered(stream), |stream| % 16, |stream| % 0x1_0000_0000,
          |stream| >= 16)
  }

  // ---- Growing the stream ----

  /** Writing a chunk that stays within the current block. */
  lemma BufferedAppend(s: seq<Byte>, chunk: seq<Byte>)
    requires |s| % 16 + |chunk| <= 16
    ensures
      var at := |s| % 16;
      Buffered(s + chunk) == Buffered(s)[..at] + chunk + Buffered(s)[at + |chunk|..]
  {
    var at := |s| % 16;
    var after := Buffered(s)[..at] + chunk + Buffered(s)[at + |chunk|..];
    forall i | 0 <= i < 16 ensures Buffered(s + chunk)[i] == after[i] {
      LatestAppend(s, chunk, i);
    }
  }

  lemma InBlock(k: nat, j: nat)
    requires j < 16
    ensures (16 * k + j) % 16 == j
  {
  }

  lemma LatestAppend(s: seq<Byte>, chunk: seq<Byte>, i: nat)
    requires |s| % 16 + |chunk| <= 16 && i < 16
    ensures
      var at := |s| % 16;
      Latest(s + chunk, i) == if at <= i < at + |chunk| then chunk[i - at] else Latest(s, i)
  {
    var q, at := |s| / 16, |s| % 16;
    assert |s| == 16 * q + at;
    if i < at + |chunk| {
      InBlock(q, i);
      hide Latest;
      LatestIsLast(s + chunk, i, 16 * q + i);
      if i < at {
        LatestIsLast(s, i, 16 * q + i);
      }
    } else if q > 0 {
      InBlock(q - 1, i);
      hide Latest;
      LatestIsLast(s + chunk, i, 16 * (q - 1) + i);
      LatestIsLast(s, i, 16 * (q - 1) + i);
    }
  }

  lemma BlockWordsShort(s: seq<Byte>, chunk: seq<Byte>)
    requires |s| % 16 + |chunk| < 16
    ensures BlockWords(s + chunk) == BlockWords(s)
  {
    hide Assemble;
  }

  lemma BlockWordsNext(s: seq<Byte>, chunk: seq<Byte>)
    requires |s| % 16 + |chunk| == 16
    ensures BlockWords(s + chunk) == BlockWords(s) + [Decode(Buffered(s + chunk), 0)]
  {
    hide Assemble;
    var t, n := s + chunk, |s| / 16 * 16;
    assert |t| == n + 16;
    forall i | 0 <= i < 4 ensures Buffered(t)[i] == t[n + i] {
      LatestIsLast(t, i, n + i);
    }
    hide Buffered, Latest;
    DecodeSame(Buffered(t), t, n);
    forall k | 0 <= k < |s| / 16 ensures BlockWords(t)[k] == BlockWords(s)[k] {
    }
  }

  lemma DecodeSame(block: seq<Byte>, stream: seq<Byte>, n: nat)
    requires |block| == 16 && n + 4 <= |stream|
    requires forall i :: 0 <= i < 4 ==> block[i] == stream[n + i]
    ensures Decode(block, 0) == Decode(stream, n)
  {
    assert block[0..4] == stream[n..n + 4];
    SameDecode(block, 0, stream, n);
  }

  lemma AbsorbSnoc(accumulator: bv32, words: seq<bv32>, w: bv32)
    ensures Absorb(accumulator, words + [w]) == Round(Absorb(accumulator, words), w)
  {
    assert (words + [w])[..|words|] == words;
  }

  /** One round of every lane. */
  function RoundLanes(lanes: seq<bv32>, next: bv32): (r: seq<bv32>)
    ensures |r| == |lanes| && forall i :: 0 <= i < |r| ==> r[i] == Round(lanes[i], next)
  {
    seq(|lanes|, i requires 0 <= i < |lanes| => Round(lanes[i], next))
  }

  /** Completing a block applies one round to every lane. */
  lemma LanesNext(seed: bv32, s: seq<Byte>, chunk: seq<Byte>)
    requires |s| % 16 + |chunk| == 16
    ensures Lanes(seed, s + chunk) == RoundLanes(Lanes(seed, s), Decode(Buffered(s + chunk), 0))
  {
    hide Round, Decode, BlockWords, Buffered;
    BlockWordsNext(s, chunk);
    var next := Decode(Buffered(s + chunk), 0);
    forall i | 0 <= i < 4 ensures Lanes(seed, s + chunk)[i] == RoundLanes(Lanes(seed, s), next)[i] {
      AbsorbSnoc(Start(seed)[i], BlockWords(s), next);
    }
  }

  lemma LanesShort(seed: bv32, s: seq<Byte>, chunk: seq<Byte>)
    requires |s| % 16 + |chunk| < 16
    ensures Lanes(seed, s + chunk) == Lanes(seed, s)
  {
    BlockWordsShort(s, chunk);
  }

  // ---- The digest ----

  function MixWord(r: bv32, w: bv32): (next: bv32) {
    TimesP4(Rotate17(Sum(r, TimesP3(w))))
  }

  function MixOctet(r: bv32, w: bv32): (next: bv32) {
    TimesP1(Rotate11(Sum(r, TimesP5(w))))
  }

  function MixByte(r: bv32, b: Byte): (next: bv32) {
    MixOctet(r, b as bv32)
  }

  /** The tail is mixed in word by word, then byte by byte. */
  function MixTail(r: bv32, tail: seq<Byte>): (next: bv32)
    decreases |tail|
  {
    if |tail| >= 4 then MixTail(MixWord(r, Decode(tail, 0)), tail[4..])
    else if |tail| > 0 then MixTail(MixByte(r, tail[0]), tail[1..])
    else r
  }

  function Avalanche(r: bv32): (next: bv32) {
    Fold16(TimesP3(Fold13(TimesP2(Fold15(r)))))
  }

  function Blend(accumulator: seq<bv32>): (r: bv32)
    requires |accumulator| == 4
  {
    Sum(Sum(Sum(Rotate1(accumulator[0]), Rotate7(accumulator[1])), Rotate12(accumulator[2])),
        Rotate18(accumulator[3]))
  }

  /** The value the tail is mixed into. */
  function Merge(accumulator: seq<bv32>, entireSize: nat, full: bool): (r: bv32)
    requires |accumulator| == 4 && entireSize < 0x1_0000_0000
  {
    Sum(if full then Blend(accumulator) else Sum(accumulator[2], P5), WordOf(entireSize))
  }

  /** Mixing in the tail and scrambling the result. */
  function Finish(r: bv32, tail: seq<Byte>): (next: bv32) {
    Avalanche(MixTail(r, tail))
  }

  predicate WellFormed(st: State) {
    && |st.accumulator| == 4 && |st.buffer| == 16
    && st.bufferSize < 16 && st.entireSize < 0x1_0000_0000
  }

  function Digest(st: State): (r: bv32)
    requires WellFormed(st)
  {
    Finish(Merge(st.accumulator, st.entireSize, st.full), st.buffer[..st.bufferSize])
  }

  // ---- Injectivity of the finalization ----

  // Every operation has an inverse. Each inverse law is stated first on the bare expression,
  // then on the named operation.

  lemma SumInverse(x: bv32, y: bv32)
    ensures Difference(x + y, y) == x && Difference(x + y, x) == y
  {
  }

  lemma SumsInverse(x: bv32, y: bv32)
    ensures Difference(Sum(x, y), y) == x && Difference(Sum(x, y), x) == y
  {
    SumInverse(x, y);
  }

  function OverP1(x: bv32): (r: bv32) { Product(x, 0x0E8B2F51) }

  lemma InverseP1()
    ensures Product(0x9E3779B1, 0x0E8B2F51) == 1
  {
  }

  lemma TimesP1Inverse(x: bv32)
    ensures OverP1(TimesP1(x)) == x
  {
    hide Product;
    InverseP1();
    ProductAssociative(x, 0x9E3779B1, 0x0E8B2F51);
  }

  function OverP2(x: bv32): (r: bv32) { Product(x, 0xB6C92F47) }

  lemma InverseP2()
    ensures Product(0x85EBCA77, 0xB6C92F47) == 1
  {
  }

  lemma TimesP2Inverse(x: bv32)
    ensures OverP2(TimesP2(x)) == x
  {
    hide Product;
    InverseP2();
    ProductAssociative(x, 0x85EBCA77, 0xB6C92F47);
  }

  function OverP3(x: bv32): (r: bv32) { Product(x, 0xA89ED915) }

  lemma InverseP3()
    ensures Product(0xC2B2AE3D, 0xA89ED915) == 1
  {
  }

  lemma TimesP3Inverse(x: bv32)
    ensures OverP3(TimesP3(x)) == x
  {
    hide Product;
    InverseP3();
    ProductAssociative(x, 0xC2B2AE3D, 0xA89ED915);
  }

  function OverP4(x: bv32): (r: bv32) { Product(x, 0xA0FE3BCF) }

  lemma InverseP4()
    ensures Product(0x27D4EB2F, 0xA0FE3BCF) == 1
  {
  }

  lemma TimesP4Inverse(x: bv32)
    ensures OverP4(TimesP4(x)) == x
  {
    hide Product;
    InverseP4();
    ProductAssociative(x, 0x27D4EB2F, 0xA0FE3BCF);
  }

  function OverP5(x: bv32): (r: bv32) { Product(x, 0xAE398151) }

  lemma InverseP5()
    ensures Product(0x165667B1, 0xAE398151) == 1
  {
  }

  lemma TimesP5Inverse(x: bv32)
    ensures OverP5(TimesP5(x)) == x
  {
    hide Product;
    InverseP5();
    ProductAssociative(x, 0x165667B1, 0xAE398151);
  }

  function Unfold15(x: bv32): (r: bv32) { (x ^ (x >> 15)) ^ (x >> 30) }

  lemma XorShift15(x: bv32)
    ensures Unfold15(x ^ (x >> 15)) == x
  {
  }

  lemma Fold15Inverse(x: bv32)
    ensures Unfold15(Fold15(x)) == x
  {
    XorShift15(x);
  }

  function Unfold13(x: bv32): (r: bv32) { (x ^ (x >> 13)) ^ (x >> 26) }

  lemma XorShift13(x: bv32)
    ensures Unfold13(x ^ (x >> 13)) == x
  {
  }

  lemma Fold13Inverse(x: bv32)
    ensures Unfold13(Fold13(x)) == x
  {
    XorShift13(x);
  }

  function Unfold16(x: bv32): (r: bv32) { (x ^ (x >> 16)) ^ (x >> 32) }

  lemma XorShift16(x: bv32)
    ensures Unfold16(x ^ (x >> 16)) == x
  {
  }

  lemma Fold16Inverse(x: bv32)
    ensures Unfold16(Fold16(x)) == x
  {
    XorShift16(x);
  }

  function RotateBack11(x: bv32): (r: bv32) { (x << 21) | (x >> 11) }

  lemma Rotation11(x: bv32)
    ensures RotateBack11((x << 11) | (x >> 21)) == x
  {
  }

  lemma Rotate11Inverse(x: bv32)
    ensures RotateBack11(Rotate11(x)) == x
  {
    Rotation11(x);
  }

  function RotateBack13(x: bv32): (r: bv32) { (x << 19) | (x >> 13) }

  lemma Rotation13(x: bv32)
    ensures RotateBack13((x << 13) | (x >> 19)) == x
  {
  }

  lemma Rotate13Inverse(x: bv32)
    ensures RotateBack13(Rotate13(x)) == x
  {
    Rotation13(x);
  }

  function RotateBack17(x: bv32): (r: bv32) { (x << 15) | (x >> 17) }

  lemma Rotation17(x: bv32)
    ensures RotateBack17((x << 17) | (x >> 15)) == x
  {
  }

  lemma Rotate17Inverse(x: bv32)
    ensures RotateBack17(Rotate17(x)) == x
  {
    Rotation17(x);
  }

  lemma SumInjective(r: bv32, s: bv32, x: bv32, y: bv32)
    requires Sum(r, x) == Sum(s, y) && (r == s || x == y)
    ensures r == s && x == y
  {
    hide Sum, Difference;
    SumsInverse(r, x);
    SumsInverse(s, y);
  }

  lemma MixWordInjective(r: bv32, s: bv32, v: bv32, w: bv32)
    requires MixWord(r, v) == MixWord(s, w) && (r == s || v == w)
    ensures r == s && v == w
  {
    hide Sum, TimesP3, TimesP4, Rotate17, OverP3, OverP4, RotateBack17;
    var x, y := Sum(r, TimesP3(v)), Sum(s, TimesP3(w));
    assert Rotate17(x) == Rotate17(y) by {
      TimesP4Inverse(Rotate17(x));
      TimesP4Inverse(Rotate17(y));
    }
    Rotate17Inverse(x);
    Rotate17Inverse(y);
    SumInjective(r, s, TimesP3(v), TimesP3(w));
    TimesP3Inverse(v);
    TimesP3Inverse(w);
  }

  lemma MixByteInjective(r: bv32, s: bv32, a: Byte, b: Byte)
    requires MixByte(r, a) == MixByte(s, b) && (r == s || a == b)
    ensures r == s && a == b
  {
    hide MixOctet;
    assert r == s && a as bv32 == b as bv32 by {
      MixOctetInjective(r, s, a as bv32, b as bv32);
    }
    SameWord(a, b);
  }

  lemma MixOctetInjective(r: bv32, s: bv32, v: bv32, w: bv32)
    requires MixOctet(r, v) == MixOctet(s, w) && (r == s || v == w)
    ensures r == s && v == w
  {
    hide Sum, TimesP1, TimesP5, Rotate11, OverP1, OverP5, RotateBack11;
    var x, y := Sum(r, TimesP5(v)), Sum(s, TimesP5(w));
    assert Rotate11(x) == Rotate11(y) by {
      TimesP1Inverse(Rotate11(x));
      TimesP1Inverse(Rotate11(y));
    }
    Rotate11Inverse(x);
    Rotate11Inverse(y);
    SumInjective(r, s, TimesP5(v), TimesP5(w));
    TimesP5Inverse(v);
    TimesP5Inverse(w);
  }

  lemma AvalancheInverse(r: bv32)
    ensures Unfold15(OverP2(Unfold13(OverP3(Unfold16(Avalanche(r)))))) == r
  {
    hide TimesP2, TimesP3, OverP2, OverP3, Fold13, Fold15, Fold16, Unfold13, Unfold15, Unfold16;
    var a := Fold15(r);
    var b := Fold13(TimesP2(a));
    Fold15Inverse(r);
    TimesP2Inverse(a);
    Fold13Inverse(TimesP2(a));
    TimesP3Inverse(b);
    Fold16Inverse(TimesP3(b));
  }

  lemma AvalancheInjective(r: bv32, s: bv32)
    requires Avalanche(r) == Avalanche(s)
    ensures r == s
  {
    hide Avalanche, OverP2, OverP3, Unfold13, Unfold15, Unfold16;
    AvalancheInverse(r);
    AvalancheInverse(s);
  }

  /** Mixing in a fixed tail loses nothing. */
  lemma {:induction false} MixTailInjective(r: bv32, s: bv32, tail: seq<Byte>)
    requires MixTail(r, tail) == MixTail(s, tail)
    ensures r == s
    decreases |tail|
  {
    hide Assemble;
    if |tail| >= 4 {
      var w := Decode(tail, 0);
      MixTailInjective(MixWord(r, w), MixWord(s, w), tail[4..]);
      MixWordInjective(r, s, w, w);
    } else if |tail| > 0 {
      MixTailInjective(MixByte(r, tail[0]), MixByte(s, tail[0]), tail[1..]);
      MixByteInjective(r, s, tail[0], tail[0]);
    }
  }

  /** `u` is one unit of a tail of `n` bytes when it starts at offset `at`: an aligned word of
      the leading words, or one byte of the rest. */
  predicate IsUnit(at: nat, u: seq<Byte>, n: nat) {
    || (|u| == 4 && at % 4 == 0)
    || (|u| == 1 && n / 4 * 4 <= at)
  }

  lemma PeelWord(a: seq<Byte>, rest: seq<Byte>)
    requires |a| >= 4
    ensures Decode(a + rest, 0) == Decode(a, 0) && (a + rest)[4..] == a[4..] + rest
  {
    hide Assemble;
  }

  lemma MixTailWord(r: bv32, a: seq<Byte>, rest: seq<Byte>)
    requires |a| >= 4
    ensures MixTail(r, a + rest) == MixTail(MixWord(r, Decode(a, 0)), a[4..] + rest)
  {
    PeelWord(a, rest);
  }

  lemma MixTailByte(r: bv32, a: seq<Byte>, rest: seq<Byte>)
    requires 0 < |a| && |a| + |rest| < 4
    ensures MixTail(r, a + rest) == MixTail(MixByte(r, a[0]), a[1..] + rest)
  {
    assert (a + rest)[1..] == a[1..] + rest;
  }

  lemma UnitAfterWord(at: nat, u: seq<Byte>, n: nat)
    requires IsUnit(at, u, n) && 4 <= at <= n
    ensures IsUnit(at - 4, u, n - 4)
  {
  }

  lemma UnitAfterByte(at: nat, u: seq<Byte>, n: nat)
    requires IsUnit(at, u, n) && 0 < at < 4 && at + |u| <= n
    ensures |u| == 1 && n < 4 && IsUnit(at - 1, u, n - 1)
  {
  }

  /** Changing one unit of the tail changes the mixed value. */
  lemma {:induction false} MixTailUnit(r: bv32, a: seq<Byte>, u: seq<Byte>, v: seq<Byte>, c: seq<Byte>)
    requires |u| == |v| && u != v && IsUnit(|a|, u, |a| + |u| + |c|)
    ensures MixTail(r, a + (u + c)) != MixTail(r, a + (v + c))
    decreases |a|
  {
    hide MixTail, MixWord, MixByte, Decode, IsUnit;
    if |a| >= 4 {
      UnitAfterWord(|a|, u, |a| + |u| + |c|);
      MixTailWord(r, a, u + c);
      MixTailWord(r, a, v + c);
      MixTailUnit(MixWord(r, Decode(a, 0)), a[4..], u, v, c);
    } else if |a| > 0 {
      UnitAfterByte(|a|, u, |a| + |u| + |c|);
      MixTailByte(r, a, u + c);
      MixTailByte(r, a, v + c);
      MixTailUnit(MixByte(r, a[0]), a[1..], u, v, c);
    } else {
      assert a + (u + c) == u + c && a + (v + c) == v + c;
      MixTailHead(r, u, v, c);
    }
  }

  lemma MixTailHead(r: bv32, u: seq<Byte>, v: seq<Byte>, c: seq<Byte>)
    requires |u| == |v| && u != v && IsUnit(0, u, |u| + |c|)
    ensures MixTail(r, u + c) != MixTail(r, v + c)
  {
    hide Assemble;
    if MixTail(r, u + c) == MixTail(r, v + c) {
      if |u| == 4 {
        PeelWord(u, c);
        PeelWord(v, c);
        assert u[4..] + c == c && v[4..] + c == c;
        MixTailInjective(MixWord(r, Decode(u, 0)), MixWord(r, Decode(v, 0)), c);
        MixWordInjective(r, r, Decode(u, 0), Decode(v, 0));
        DecodeInjective(u, v);
      } else {
        assert (u + c)[1..] == c && (v + c)[1..] == c;
        MixTailInjective(MixByte(r, u[0]), MixByte(r, v[0]), c);
        MixByteInjective(r, r, u[0], v[0]);
      }
    }
  }

  lemma FinishSensitive(r: bv32, a: seq<Byte>, u: seq<Byte>, v: seq<Byte>, c: seq<Byte>)
    requires |u| == |v| && u != v && IsUnit(|a|, u, |a| + |u| + |c|)
    ensures Finish(r, a + (u + c)) != Finish(r, a + (v + c))
  {
    MixTailUnit(r, a, u, v, c);
    if Finish(r, a + (u + c)) == Finish(r, a + (v + c)) {
      AvalancheInjective(MixTail(r, a + (u + c)), MixTail(r, a + (v + c)));
    }
  }

  /** States that differ only in one unit of their unprocessed tails have different digests. */
  lemma DigestSensitive(x: State, y: State, a: seq<Byte>, u: seq<Byte>, v: seq<Byte>, c: seq<Byte>)
    requires WellFormed(x) && WellFormed(y)
    requires x.(buffer := y.buffer) == y
    requires x.buffer[..x.bufferSize] == a + (u + c) && y.buffer[..y.bufferSize] == a + (v + c)
    requires |u| == |v| && u != v && IsUnit(|a|, u, x.bufferSize)
    ensures Digest(x) != Digest(y)
  {
    hide Finish, Merge;
    assert |a + (u + c)| == x.bufferSize;
    FinishSensitive(Merge(x.accumulator, x.entireSize, x.full), a, u, v, c);
  }

  // ---- What the digest of a stream depends on ----

  /** The digest of a whole stream. */
  function Hash(seed: bv32, stream: seq<Byte>): (r: bv32) {
    Digest(StateOf(seed, stream))
  }

  /** The bytes after the last complete block. */
  function Tail(stream: seq<Byte>): (r: seq<Byte>) {
    stream[|stream| / 16 * 16..]
  }

  lemma BufferedTail(stream: seq<Byte>)
    ensures Buffered(stream)[..|stream| % 16] == Tail(stream)
  {
    var n := |stream| / 16 * 16;
    forall i | 0 <= i < |stream| % 16 ensures Buffered(stream)[i] == stream[n + i] {
      LatestInTail(stream, i);
    }
  }

  lemma LatestInTail(stream: seq<Byte>, i: nat)
    requires i < |stream| % 16
    ensures Latest(stream, i) == stream[|stream| / 16 * 16 + i]
  {
  }

  lemma SameBlockWords(x: seq<Byte>, y: seq<Byte>)
    requires |x| == |y|
    requires forall i :: 0 <= i < |x| && (i % 16 < 4 || |x| / 16 * 16 <= i) ==> x[i] == y[i]
    ensures BlockWords(x) == BlockWords(y) && Tail(x) == Tail(y)
  {
    hide Assemble;
    forall k | 0 <= k < |x| / 16 ensures Decode(x, 16 * k) == Decode(y, 16 * k) {
      hide Decode;
      var n := 16 * k;
      InBlock(k, 0);
      InBlock(k, 1);
      InBlock(k, 2);
      InBlock(k, 3);
      assert x[n] == y[n] && x[n + 1] == y[n + 1] && x[n + 2] == y[n + 2] && x[n + 3] == y[n + 3];
      assert x[n..n + 4] == y[n..n + 4];
      SameDecode(x, n, y, n);
    }
    hide Decode;
  }

  lemma HashFromParts(seed: bv32, stream: seq<Byte>)
    ensures Hash(seed, stream)
         == Finish(Merge(Lanes(seed, stream), |stream| % 0x1_0000_0000, |stream| >= 16), Tail(stream))
  {
    BufferedTail(stream);
  }

  /** Bytes 4 to 15 of a complete block influence neither the accumulators nor the digest. */
  lemma BlockTailsIgnored(seed: bv32, x: seq<Byte>, y: seq<Byte>)
    requires |x| == |y|
    requires forall i :: 0 <= i < |x| && (i % 16 < 4 || |x| / 16 * 16 <= i) ==> x[i] == y[i]
    ensures Lanes(seed, x) == Lanes(seed, y) && Hash(seed, x) == Hash(seed, y)
  {
    hide Finish, Merge, Absorb, BlockWords, Start;
    SameBlockWords(x, y);
    assert Lanes(seed, x) == Lanes(seed, y);
    HashFromParts(seed, x);
    HashFromParts(seed, y);
  }

  /** Changing one unit after the last complete block always changes the digest. */
  lemma TailDetected(seed: bv32, blocks: seq<Byte>, a: seq<Byte>, u: seq<Byte>, v: seq<Byte>,
                     c: seq<Byte>)
    requires |blocks| % 16 == 0 && |a| + |u| + |c| < 16
    requires |u| == |v| && u != v && IsUnit(|a|, u, |a| + |u| + |c|)
    ensures Hash(seed, blocks + (a + (u + c))) != Hash(seed, blocks + (a + (v + c)))
  {
    hide Finish, Merge, Lanes;
    var n := |blocks| + |a| + |u| + |c|;
    HashAfterBlocks(seed, blocks, a + (u + c), n);
    HashAfterBlocks(seed, blocks, a + (v + c), n);
    FinishSensitive(Merge(Lanes(seed, blocks), n % 0x1_0000_0000, n >= 16), a, u, v, c);
  }

  lemma HashAfterBlocks(seed: bv32, blocks: seq<Byte>, tail: seq<Byte>, n: nat)
    requires |blocks| % 16 == 0 && |tail| < 16 && n == |blocks| + |tail|
    ensures Hash(seed, blocks + tail)
         == Finish(Merge(Lanes(seed, blocks), n % 0x1_0000_0000, n >= 16), tail)
  {
    hide Finish, Merge, Lanes;
    LanesShort(seed, blocks, tail);
    HashFromParts(seed, blocks + tail);
    TailAfterBlocks(blocks, tail);
  }

  lemma TailAfterBlocks(blocks: seq<Byte>, tail: seq<Byte>)
    requires |blocks| % 16 == 0 && |tail| < 16
    ensures Tail(blocks + tail) == tail
  {
  }

  lemma RoundInjective(r: bv32, s: bv32, v: bv32, w: bv32)
    requires Round(r, v) == Round(s, w) && (r == s || v == w)
    ensures r == s && v == w
  {
    hide Sum, TimesP1, TimesP2, Rotate13, OverP1, OverP2, RotateBack13;
    var x, y := Sum(r, TimesP2(v)), Sum(s, TimesP2(w));
    assert Rotate13(x) == Rotate13(y) by {
      TimesP1Inverse(Rotate13(x));
      TimesP1Inverse(Rotate13(y));
    }
    Rotate13Inverse(x);
    Rotate13Inverse(y);
    SumInjective(r, s, TimesP2(v), TimesP2(w));
    TimesP2Inverse(v);
    TimesP2Inverse(w);
  }

  /** An accumulator never forgets a difference: one changed block word changes it for good. */
  lemma {:induction false} AbsorbSensitive(acc: bv32, p: seq<bv32>, v: bv32, w: bv32, q: seq<bv32>)
    requires v != w
    ensures Absorb(acc, p + [v] + q) != Absorb(acc, p + [w] + q)
  {
    hide Round;
    if q == [] {
      assert p + [v] + q == p + [v] && p + [w] + q == p + [w];
      AbsorbSnoc(acc, p, v);
      AbsorbSnoc(acc, p, w);
      if Absorb(acc, p + [v]) == Absorb(acc, p + [w]) {
        RoundInjective(Absorb(acc, p), Absorb(acc, p), v, w);
      }
    } else {
      var init, last := q[..|q| - 1], q[|q| - 1];
      assert p + [v] + q == (p + [v] + init) + [last] && p + [w] + q == (p + [w] + init) + [last];
      AbsorbSensitive(acc, p, v, w, init);
      AbsorbSnoc(acc, p + [v] + init, last);
      AbsorbSnoc(acc, p + [w] + init, last);
      if Absorb(acc, p + [v] + q) == Absorb(acc, p + [w] + q) {
        RoundInjective(Absorb(acc, p + [v] + init), Absorb(acc, p + [w] + init), last, last);
      }
    }
  }

  lemma BlockWordsAround(p: seq<Byte>, u: seq<Byte>, q: seq<Byte>)
    requires |p| % 16 == 0 && |u| == 16
    ensures BlockWords(p + u + q) == BlockWords(p) + [Decode(u[..4], 0)] + BlockWords(q)
  {
    hide Assemble;
  }

  /** Streams that differ in one complete block only lead to the same accumulators exactly when
      the first four bytes of that block agree. */
  lemma BlockDetectedIff(seed: bv32, p: seq<Byte>, u: seq<Byte>, v: seq<Byte>, q: seq<Byte>)
    requires |p| % 16 == 0 && |u| == |v| == 16
    ensures Lanes(seed, p + u + q) == Lanes(seed, p + v + q) <==> u[..4] == v[..4]
  {
    hide Absorb, BlockWords, Decode;
    BlockWordsAround(p, u, q);
    BlockWordsAround(p, v, q);
    if u[..4] != v[..4] {
      var a, b := Decode(u[..4], 0), Decode(v[..4], 0);
      if a == b {
        DecodeInjective(u[..4], v[..4]);
      }
      AbsorbSensitive(Start(seed)[0], BlockWords(p), a, b, BlockWords(q));
      assert Lanes(seed, p + u + q)[0] != Lanes(seed, p + v + q)[0];
    }
  }

  /** Streams of one length with complete blocks and the same tail have the same digest exactly
      when their accumulators blend to the same word: nothing after the blend loses anything. */
  lemma DigestIffBlend(seed: bv32, x: seq<Byte>, y: seq<Byte>)
    requires |x| == |y| >= 16 && Tail(x) == Tail(y)
    ensures Hash(seed, x) == Hash(seed, y) <==> Blend(Lanes(seed, x)) == Blend(Lanes(seed, y))
  {
    hide Lanes, Blend, Finish, Merge;
    HashFromParts(seed, x);
    HashFromParts(seed, y);
    var n := |x| % 0x1_0000_0000;
    if Hash(seed, x) == Hash(seed, y) {
      FinishInjective(Merge(Lanes(seed, x), n, true), Merge(Lanes(seed, y), n, true), Tail(x));
    }
    MergeIffBlend(Lanes(seed, x), Lanes(seed, y), n);
  }

  lemma FinishInjective(r: bv32, s: bv32, tail: seq<Byte>)
    requires Finish(r, tail) == Finish(s, tail)
    ensures r == s
  {
    hide MixTail, Avalanche;
    AvalancheInjective(MixTail(r, tail), MixTail(s, tail));
    MixTailInjective(r, s, tail);
  }

  lemma MergeIffBlend(a: seq<bv32>, b: seq<bv32>, n: nat)
    requires |a| == |b| == 4 && n < 0x1_0000_0000
    ensures Merge(a, n, true) == Merge(b, n, true) <==> Blend(a) == Blend(b)
  {
    hide Blend, Sum;
    if Merge(a, n, true) == Merge(b, n, true) {
      SumInjective(Blend(a), Blend(b), WordOf(n), WordOf(n));
    }
  }

  /** Four accumulators blend to one word, so even a change of the first four bytes of a block can
      go unnoticed: two blocks with different accumulators and the same digest. */
  lemma BlendCollision() returns (x: seq<Byte>, y: seq<Byte>)
    ensures |x| == |y| == 16 && x[..4] != y[..4]
    ensures Lanes(0, x) != Lanes(0, y) && Hash(0, x) == Hash(0, y)
  {
    hide Hash, Lanes, Blend, RoundLanes, Encode;
    var v, w := 0x0003889D, 0x00AE9E96;
    x, y := BlockOf(v), BlockOf(w);
    OneBlock(v);
    OneBlock(w);
    BlendedAlike();
    DecodeEncode(v);
    DecodeEncode(w);
    DigestIffBlend(0, x, y);
    BlockDetectedIff(0, [], x, y, []);
    assert [] + x + [] == x && [] + y + [] == y;
  }

  /** A block with the given first word. */
  function BlockOf(w: bv32): (block: seq<Byte>)
    ensures |block| == 16 && block[..4] == Encode(w)
  {
    Encode(w) + [0, 0, 0, 0, 0, 0, 0, 0, 0, 0, 0, 0]
  }

  lemma OneBlock(w: bv32)
    ensures Lanes(0, BlockOf(w)) == RoundLanes(Start(0), w)
  {
    hide Round, Encode, Absorb;
    var x := BlockOf(w);
    BlockWordsAround([], x, []);
    assert [] + x + [] == x && BlockWords([]) == [];
    DecodeEncode(w);
    assert BlockWords(x) == [] + [w];
    forall i | 0 <= i < 4 ensures Lanes(0, x)[i] == Round(Start(0)[i], w) {
      AbsorbSnoc(Start(0)[i], [], w);
      NoWords(Start(0)[i]);
    }
  }

  lemma NoWords(accumulator: bv32)
    ensures Absorb(accumulator, []) == accumulator
  {
  }

  lemma BlendedAlike()
    ensures Blend(RoundLanes(Start(0), 0x0003889D)) == Blend(RoundLanes(Start(0), 0x00AE9E96))
  {
  }

  // ---- Hashing the object ----

  function WordsBytes(words: seq<bv32>): (data: seq<Byte>)
    ensures |data| == 4 * |words|
  {
    if words == [] then [] else WordsBytes(words[..|words| - 1]) + Encode(words[|words| - 1])
  }

  lemma {:induction false} WordsBytesAt(words: seq<bv32>, i: nat)
    requires i < |words|
    ensures WordsBytes(words)[4 * i..4 * i + 4] == Encode(words[i])
  {
    hide Encode;
    var n := |words| - 1;
    if i < n {
      WordsBytesAt(words[..n], i);
      assert WordsBytes(words)[4 * i..4 * i + 4] == WordsBytes(words[..n])[4 * i..4 * i + 4];
    }
  }

  lemma WordsBytesInjective(v: seq<bv32>, w: seq<bv32>)
    requires |v| == |w| && WordsBytes(v) == WordsBytes(w)
    ensures v == w
  {
    hide Encode, Decode, WordsBytes;
    forall i | 0 <= i < |v| ensures v[i] == w[i] {
      WordsBytesAt(v, i);
      WordsBytesAt(w, i);
      DecodeEncode(v[i]);
      DecodeEncode(w[i]);
    }
  }

  /** The bytes `hash` feeds to a hash algorithm, with nothing between the parts: the
      accumulators, the used part of the buffer, the total size and the full flag. */
  function HashBytes(st: State): (data: seq<Byte>)
    requires WellFormed(st)
    ensures |data| == 24 + st.bufferSize
  {
    WordsBytes(st.accumulator) + st.buffer[..st.bufferSize]
    + NumberBytes(st.entireSize) + NumberBytes(if st.full then 1 else 0)
  }

  /** The states agree except for buffer bytes beyond the buffer size. */
  predicate SameUpToStale(s: State, t: State)
    requires WellFormed(s) && WellFormed(t)
  {
    s.(buffer := t.buffer) == t && s.buffer[..s.bufferSize] == t.buffer[..t.bufferSize]
  }

  lemma NumberBytesInjective(m: nat, n: nat)
    requires m < 0x1_0000_0000 && n < 0x1_0000_0000 && NumberBytes(m) == NumberBytes(n)
    ensures m == n
  {
    hide NumberBytes, Number;
    NumberRoundTrip(m);
    NumberRoundTrip(n);
  }

  /** Although nothing separates them, the bytes fed determine the parts: they are equal exactly
      for states that agree up to stale buffer bytes. */
  lemma HashBytesDetermineState(s: State, t: State)
    requires WellFormed(s) && WellFormed(t)
    ensures HashBytes(s) == HashBytes(t) <==> SameUpToStale(s, t)
  {
    hide WordsBytes, NumberBytes;
    if HashBytes(s) == HashBytes(t) {
      HashParts(s);
      HashParts(t);
      WordsBytesInjective(s.accumulator, t.accumulator);
      NumberBytesInjective(s.entireSize, t.entireSize);
      NumberBytesInjective(if s.full then 1 else 0, if t.full then 1 else 0);
    }
  }

  lemma HashParts(st: State)
    requires WellFormed(st)
    ensures
      var d, n := HashBytes(st), 16 + st.bufferSize;
      && d[..16] == WordsBytes(st.accumulator) && d[16..n] == st.buffer[..st.bufferSize]
      && d[n..n + 4] == NumberBytes(st.entireSize)
      && d[n + 4..] == NumberBytes(if st.full then 1 else 0)
  {
    hide WordsBytes, NumberBytes;
  }

  /** The bytes fed to a hash algorithm fix the digest. */
  lemma HashBytesDetermineDigest(seed: bv32, x: seq<Byte>, other: bv32, y: seq<Byte>)
    requires HashBytes(StateOf(seed, x)) == HashBytes(StateOf(other, y))
    ensures Hash(seed, x) == Hash(other, y)
  {
    hide Finish, Merge, HashBytes, Lanes, Buffered;
    HashBytesDetermineState(StateOf(seed, x), StateOf(other, y));
  }

  // ---- The mutable checksum ----

  /** Copies `n` bytes of `source` from `offset` into `buffer` at `at`. */
  method Copy(buffer: array<Byte>, at: nat, source: seq<Byte>, offset: nat, n: nat)
    requires at + n <= buffer.Length && offset + n <= |source|
    modifies buffer
    ensures buffer[..] == old(buffer[..at]) + source[offset..offset + n] + old(buffer[at + n..])
  {
    for i := 0 to n
      invariant buffer[..at] == old(buffer[..at]) && buffer[at + i..] == old(buffer[at + i..])
      invariant buffer[at..at + i] == source[offset..offset + i]
    {
      buffer[at + i] := source[offset + i];
    }
    assert buffer[..] == buffer[..at] + buffer[at..at + n] + buffer[at + n..];
  }

  /** The lane loop. */
  method RoundEach(accumulator: array<bv32>, next: bv32)
    modifies accumulator
    ensures accumulator[..] == RoundLanes(old(accumulator[..]), next)
  {
    for i := 0 to accumulator.Length
      invariant forall j :: 0 <= j < i ==> accumulator[j] == Round(old(accumulator[j]), next)
      invariant forall j :: i <= j < accumulator.Length ==> accumulator[j] == old(accumulator[j])
    {
      accumulator[i] := Round(accumulator[i], next);
    }
  }

  /** Completes a block at `at` and rounds every lane with its first word: each lane reads the
      word at offset 0. The caller names the resulting lanes and block. */
  method FillBlock(accumulator: array<bv32>, buffer: array<Byte>, at: nat, data: seq<Byte>,
                   offset: nat, ghost lanes: seq<bv32>, ghost block: seq<Byte>)
    requires buffer.Length == 16 && at <= 16 && offset + (16 - at) <= |data| && |block| == 16
    requires block == buffer[..at] + data[offset..offset + (16 - at)] + buffer[16..]
    requires lanes == RoundLanes(accumulator[..], Decode(block, 0))
    modifies accumulator, buffer
    ensures accumulator[..] == lanes && buffer[..] == block
  {
    Copy(buffer, at, data, offset, 16 - at);
    var next := Decode(buffer[..], 0);
    RoundEach(accumulator, next);
  }

  /** A checksum object. The ghost `stream` records every byte fed since the last reset. */
  class ChecksumXxHash32 {
    ghost var seed: bv32
    ghost var stream: seq<Byte>

    const accumulator: array<bv32>
    const buffer: array<Byte>
    var bufferSize: nat
    var entireSize: nat
    var full: bool

    ghost predicate Shaped() {
      accumulator.Length == 4 && buffer.Length == 16
    }

    /** The fields as a value. */
    ghost function View(): (r: State)
      reads this, accumulator, buffer
    {
      State(accumulator[..], buffer[..], bufferSize, entireSize, full)
    }

    /** The whole state, stale buffer bytes included, is a function of the bytes fed. */
    ghost predicate Valid()
      reads this, accumulator, buffer
    {
      && Holds(stream)
      && entireSize == |stream| % 0x1_0000_0000
      && full == (|stream| >= 16)
    }

    /** The accumulators and the buffer are those of a checksum that has been fed `s`. */
    ghost predicate Holds(s: seq<Byte>)
      reads this, accumulator, buffer
    {
      && Shaped() && accumulator[..] == Lanes(seed, s) && buffer[..] == Buffered(s)
      && bufferSize == |s| % 16
    }

    lemma ValidView()
      requires Valid()
      ensures View() == StateOf(seed, stream)
    {
    }

    constructor (digest: bv32)
      ensures Valid() && fresh(accumulator) && fresh(buffer)
      ensures seed == digest && stream == []
    {
      accumulator := new bv32[4][Sum(Sum(digest, P1), P2), Sum(digest, P2), digest, Difference(digest, P1)];
      buffer := new Byte[16](_ => 0);
      bufferSize, entireSize, full := 0, 0, false;
      seed, stream := digest, [];
      new;
      EmptyState(digest);
      assert accumulator[..] == Start(digest);
      assert buffer[..] == seq(16, _ => 0);
    }

    method Reset(digest: bv32)
      requires Shaped()
      modifies this, accumulator, buffer
      ensures Valid() && seed == digest && stream == []
    {
      accumulator[0] := Sum(Sum(digest, P1), P2);
      accumulator[1] := Sum(digest, P2);
      accumulator[2] := digest;
      accumulator[3] := Difference(digest, P1);
      for i := 0 to 16
        invariant forall j :: 0 <= j < i ==> buffer[j] == 0
        invariant accumulator[..] == Start(digest)
      {
        buffer[i] := 0;
      }
      bufferSize, entireSize, full := 0, 0, false;
      seed, stream := digest, [];
      EmptyState(digest);
      assert buffer[..] == seq(16, _ => 0);
    }

    /** Fills the buffer to the end of the block and absorbs it. */
    method AbsorbBlock(ghost s: seq<Byte>, ghost t: seq<Byte>, data: seq<Byte>, offset: nat)
      requires Holds(s) && offset + (16 - bufferSize) <= |data|
      requires t == s + data[offset..offset + (16 - bufferSize)]
      modifies this`bufferSize, accumulator, buffer
      ensures Holds(t) && bufferSize == 0
    {
      hide Lanes, Buffered, RoundLanes, Decode;
      ghost var chunk := data[offset..offset + (16 - bufferSize)];
      BufferedAppend(s, chunk);
      LanesNext(seed, s, chunk);
      FillBlock(accumulator, buffer, bufferSize, data, offset, Lanes(seed, t), Buffered(t));
      bufferSize := 0;
    }

    /** Absorbs every complete block. */
    method AbsorbBlocks(ghost start: seq<Byte>, data: seq<Byte>) returns (offset: nat, remaining: nat)
      requires Holds(start)
      modifies this`bufferSize, accumulator, buffer
      ensures offset <= |data| && remaining == bufferSize + |data| - offset < 16
      ensures Holds(start + data[..offset])
      ensures old(bufferSize) + |data| >= 16 ==> bufferSize == 0
    {
      offset, remaining := 0, bufferSize + |data|;
      assert start + data[..0] == start && bufferSize < 16;
      hide Holds;
      while remaining >= 16
        invariant bufferSize < 16 && offset <= |data| && remaining == bufferSize + |data| - offset
        invariant Holds(start + data[..offset])
        invariant remaining < 16 && old(bufferSize) + |data| >= 16 ==> bufferSize == 0
      {
        var n := 16 - bufferSize;
        assert start + data[..offset] + data[offset..offset + n] == start + data[..offset + n];
        AbsorbBlock(start + data[..offset], start + data[..offset + n], data, offset);
        offset := offset + n;
        remaining := remaining - 16;
      }
    }

    /** Stores bytes that do not complete a block. */
    method Store(ghost s: seq<Byte>, data: seq<Byte>, offset: nat)
      requires Holds(s) && offset <= |data| && bufferSize + |data| - offset < 16
      modifies this`bufferSize, buffer
      ensures Holds(s + data[offset..])
    {
      hide Lanes, Buffered;
      var n := |data| - offset;
      assert data[offset..offset + n] == data[offset..];
      ghost var chunk, whole := data[offset..], buffer[..];
      BufferedAppend(s, chunk);
      LanesShort(seed, s, chunk);
      SizeWithinBlock(|s|, n);
      Copy(buffer, bufferSize, data, offset, n);
      assert buffer[..] == whole[..bufferSize] + chunk + whole[bufferSize + n..];
      bufferSize := bufferSize + n;
    }

    method UpdateBytes(data: seq<Byte>)
      requires Valid()
      modifies this, accumulator, buffer
      ensures Valid() && seed == old(seed) && stream == old(stream) + data
    {
      hide Lanes, Buffered;
      var size := |data|;
      ghost var start := stream;
      SizesOfAppend(|start|, size);
      entireSize := (entireSize + size % 0x1_0000_0000) % 0x1_0000_0000;
      if !full && (size >= 16 || entireSize >= 16) {
        full := true;
      }
      stream := start + data;
      if bufferSize + size < 16 {
        Store(start, data, 0);
        assert data[0..] == data;
        return;
      }
      var offset, remaining := AbsorbBlocks(start, data);
      assert start + data[..offset] + data[offset..] == start + data;
      if remaining != 0 {
        Store(start + data[..offset], data, offset);
      } else {
        assert data[..offset] == data;
      }
    }

    /** Feeding a segmented buffer is the same as feeding its leading `size` bytes flat. */
    method UpdateBlob(data: Blob, size: nat)
      requires Valid() && data.Valid()
      modifies this, accumulator, buffer
      ensures Valid() && seed == old(seed) && stream == old(stream) + data.Prefix(size)
    {
      hide Valid, Blob.Prefix, Blob.Contents;
      data.PrefixNone();
      ghost var start := stream;
      if size == 0 {
        return;
      }
      var numBytesRemaining := size;
      for i := 0 to data.numDataBuffers
        invariant Valid() && seed == old(seed)
        invariant |data.DataUpTo(i)| < size && numBytesRemaining == size - |data.DataUpTo(i)|
        invariant stream == start + data.DataUpTo(i)
      {
        var bufferSize := data.DataSize(i);
        var numBytesToUpdate, done := bufferSize, false;
        if bufferSize < numBytesRemaining {
          numBytesRemaining := numBytesRemaining - bufferSize;
        } else {
          numBytesToUpdate, numBytesRemaining, done := numBytesRemaining, 0, true;
        }
        UpdateBytes(data.buffers[i][..numBytesToUpdate]);
        if done {
          data.PrefixEndsInBuffer(i, size);
          return;
        }
      }
      data.PrefixIsAll(size);
    }

    method Value() returns (result: bv32)
      requires Valid()
      ensures result == Hash(seed, stream)
    {
      hide Lanes, Buffered, MixTail, Avalanche, Merge;
      ValidView();
      result := MergeLanes(accumulator[..], entireSize, full);
      result := MixInTail(result, buffer[..], bufferSize);
      result := Avalanche(result);
    }

    /** Compares the objects byte for byte. Equal seeds and equal streams give equal objects,
        however the streams were cut. */
    method Equals(other: ChecksumXxHash32) returns (equal: bool)
      requires Valid() && other.Valid()
      ensures equal <==> View() == other.View()
      ensures seed == other.seed && stream == other.stream ==> equal
    {
      hide Lanes, Buffered;
      equal := accumulator[..] == other.accumulator[..] && buffer[..] == other.buffer[..]
        && bufferSize == other.bufferSize && entireSize == other.entireSize && full == other.full;
    }
  }

  /** Feeding the chunks of a stream one update at a time gives the digest of the stream. */
  method DigestOfChunks(digest: bv32, chunks: seq<seq<Byte>>) returns (result: bv32)
    ensures result == Hash(digest, Concat(chunks))
  {
    hide Hash;
    var checksum := new ChecksumXxHash32(digest);
    for i := 0 to |chunks|
      invariant checksum.Valid() && checksum.seed == digest
      invariant checksum.stream == Concat(chunks[..i])
      invariant fresh(checksum) && fresh(checksum.accumulator) && fresh(checksum.buffer)
    {
      checksum.UpdateBytes(chunks[i]);
      assert chunks[..i + 1][..i] == chunks[..i];
    }
    assert chunks[..|chunks|] == chunks;
    result := checksum.Value();
  }

  method MergeLanes(accumulator: seq<bv32>, entireSize: nat, full: bool) returns (result: bv32)
    requires |accumulator| == 4 && entireSize < 0x1_0000_0000
    ensures result == Merge(accumulator, entireSize, full)
  {
    hide Blend, Sum;
    if full {
      result := Blend(accumulator);
    } else {
      result := Sum(accumulator[2], P5);
    }
    result := Sum(result, WordOf(entireSize));
  }

  /** The two tail loops. */
  method MixInTail(start: bv32, buffer: seq<Byte>, bufferSize: nat) returns (result: bv32)
    requires bufferSize <= |buffer|
    ensures result == MixTail(start, buffer[..bufferSize])
  {
    hide MixWord, MixOctet, Assemble;
    result := start;
    ghost var tail := buffer[..bufferSize];
    var offset, length := 0, bufferSize;
    assert tail[0..] == tail;
    while length >= 4
      invariant offset + length == bufferSize
      invariant MixTail(result, tail[offset..]) == MixTail(start, tail)
    {
      assert tail[offset..][4..] == tail[offset + 4..];
      result := MixWord(result, Decode(buffer, offset));
      offset := offset + 4;
      length := length - 4;
    }
    while length != 0
      invariant offset + length == bufferSize && length < 4
      invariant MixTail(result, tail[offset..]) == MixTail(start, tail)
    {
      assert tail[offset..][1..] == tail[offset + 1..];
      result := MixByte(result, buffer[offset]);
      length := length - 1;
      offset := offset + 1;
    }
  }

  lemma SizeWithinBlock(before: nat, n: nat)
    requires before % 16 + n < 16
    ensures (before + n) % 16 == before % 16 + n
  {
  }

  lemma EmptyState(seed: bv32)
    ensures StateOf(seed, []) == State(Start(seed), seq(16, _ => 0), 0, 0, false)
  {
  }

  /** The wrapped size never hides that a block has been completed. */
  lemma SizesOfAppend(before: nat, size: nat)
    ensures (before % 0x1_0000_0000 + size % 0x1_0000_0000) % 0x1_0000_0000 == (before + size) % 0x1_0000_0000
    ensures before < 16 && size < 16 ==> (before + size) % 0x1_0000_0000 == before + size
  {
    var m := 0x1_0000_0000;
    SameRemainder(before % m + size % m, before / m + size / m);
  }

  lemma SameRemainder(r: nat, k: nat)
    ensures (r + k * 0x1_0000_0000) % 0x1_0000_0000 == r % 0x1_0000_0000
  {
  }
}
