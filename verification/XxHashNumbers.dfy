/** The block checksum once more, written on integers modulo 2^32 with every constant spelled out, and
    the proof that it is what the program computes, for every seed and every stream. */
module XxHashNumbers {
  import opened Bytes
  import opened Words
  import opened WordValues
  import opened XxHash32

  // ---- The checksum on integers ----

  /** A rotation: `p` and `q` are powers of two with product 2^32. */
  function Turn(x: nat, p: nat, q: nat): (r: nat)
    requires q > 0
  {
    x * p % 0x1_0000_0000 + x / q
  }

  function WordAt(bytes: seq<nat>, i: nat): (w: nat)
    requires i + 4 <= |bytes|
  {
    bytes[i] + 0x100 * bytes[i + 1] + 0x1_0000 * bytes[i + 2] + 0x100_0000 * bytes[i + 3]
  }

  /** An accumulator after `n` blocks. */
  function Accumulated(start: nat, bytes: seq<nat>, n: nat): (a: nat)
    requires 16 * n <= |bytes|
  {
    if n == 0 then start
    else
      var a := Accumulated(start, bytes, n - 1);
      Turn((a + WordAt(bytes, 16 * n - 16) * 0x85EBCA77) % 0x1_0000_0000, 0x2000, 0x8_0000)
        * 0x9E3779B1 % 0x1_0000_0000
  }

  /** The bytes from `i` on, mixed in by words and then one by one. */
  function MixedFrom(r: nat, bytes: seq<nat>, i: nat): (mixed: nat)
    requires i <= |bytes|
    decreases |bytes| - i
  {
    if i + 4 <= |bytes| then
      MixedFrom(Turn((r + WordAt(bytes, i) * 0xC2B2AE3D) % 0x1_0000_0000, 0x2_0000, 0x8000)
                  * 0x27D4EB2F % 0x1_0000_0000,
                bytes, i + 4)
    else if i < |bytes| then
      MixedFrom(Turn((r + bytes[i] * 0x165667B1) % 0x1_0000_0000, 0x800, 0x20_0000)
                  * 0x9E3779B1 % 0x1_0000_0000,
                bytes, i + 1)
    else r
  }

  function Scrambled(r: nat): (s: nat) {
    var a := XorNat(r, r / 0x8000) * 0x85EBCA77 % 0x1_0000_0000;
    var b := XorNat(a, a / 0x2000) * 0xC2B2AE3D % 0x1_0000_0000;
    XorNat(b, b / 0x1_0000)
  }

  /** The four accumulators of the whole blocks, turned by 1, 7, 12 and 18 places and added up. */
  function Blended(seed: nat, bytes: seq<nat>): (b: nat) {
    var n := |bytes| / 16;
    Turn(Accumulated((seed + 0x9E3779B1 + 0x85EBCA77) % 0x1_0000_0000, bytes, n), 0x2, 0x8000_0000)
    + Turn(Accumulated((seed + 0x85EBCA77) % 0x1_0000_0000, bytes, n), 0x80, 0x200_0000)
    + Turn(Accumulated(seed, bytes, n), 0x1000, 0x10_0000)
    + Turn(Accumulated((seed - 0x9E3779B1) % 0x1_0000_0000, bytes, n), 0x4_0000, 0x4000)
  }

  function Checksum(seed: nat, bytes: seq<nat>): (digest: nat) {
    var start := if |bytes| >= 16 then Blended(seed, bytes) else seed + 0x165667B1;
    Scrambled(MixedFrom((start + |bytes|) % 0x1_0000_0000, bytes, |bytes| / 16 * 16))
  }

  // ---- The operations of the program ----

  lemma ValP1()
    ensures Val(0x9E3779B1) == 0x9E3779B1
  {
  }

  lemma ValTimesP1(x: bv32)
    ensures Val(TimesP1(x)) == Val(x) * 0x9E3779B1 % 0x1_0000_0000
  {
    hide Val, Product;
    ValP1();
    ValProduct(x, 0x9E3779B1);
  }

  lemma ValP2()
    ensures Val(0x85EBCA77) == 0x85EBCA77
  {
  }

  lemma ValTimesP2(x: bv32)
    ensures Val(TimesP2(x)) == Val(x) * 0x85EBCA77 % 0x1_0000_0000
  {
    hide Val, Product;
    ValP2();
    ValProduct(x, 0x85EBCA77);
  }

  lemma ValP3()
    ensures Val(0xC2B2AE3D) == 0xC2B2AE3D
  {
  }

  lemma ValTimesP3(x: bv32)
    ensures Val(TimesP3(x)) == Val(x) * 0xC2B2AE3D % 0x1_0000_0000
  {
    hide Val, Product;
    ValP3();
    ValProduct(x, 0xC2B2AE3D);
  }

  lemma ValP4()
    ensures Val(0x27D4EB2F) == 0x27D4EB2F
  {
  }

  lemma ValTimesP4(x: bv32)
    ensures Val(TimesP4(x)) == Val(x) * 0x27D4EB2F % 0x1_0000_0000
  {
    hide Val, Product;
    ValP4();
    ValProduct(x, 0x27D4EB2F);
  }

  lemma ValP5()
    ensures Val(0x165667B1) == 0x165667B1
  {
  }

  lemma ValTimesP5(x: bv32)
    ensures Val(TimesP5(x)) == Val(x) * 0x165667B1 % 0x1_0000_0000
  {
    hide Val, Product;
    ValP5();
    ValProduct(x, 0x165667B1);
  }

  lemma BareRotate1(x: bv32)
    ensures Sum(x * 0x2, x >> 31) == (x << 1) | (x >> 31)
    ensures Val(0x2) == 0x2
  {
  }

  lemma ValRotate1(x: bv32)
    ensures Val(Rotate1(x)) == Turn(Val(x), 0x2, 0x80000000)
  {
    hide Val, Sum;
    BareRotate1(x);
    ValRight31(x);
    RotatedBelow(Val(x), 0x2, 0x80000000);
    ValRotate(x, 0x2, Right31(x));
  }

  lemma BareRotate7(x: bv32)
    ensures Sum(x * 0x80, x >> 25) == (x << 7) | (x >> 25)
    ensures Val(0x80) == 0x80
  {
  }

  lemma ValRotate7(x: bv32)
    ensures Val(Rotate7(x)) == Turn(Val(x), 0x80, 0x2000000)
  {
    hide Val, Sum;
    BareRotate7(x);
    ValRight25(x);
    RotatedBelow(Val(x), 0x80, 0x2000000);
    ValRotate(x, 0x80, Right25(x));
  }

  lemma BareRotate11(x: bv32)
    ensures Sum(x * 0x800, x >> 21) == (x << 11) | (x >> 21)
    ensures Val(0x800) == 0x800
  {
  }

  lemma ValRotate11(x: bv32)
    ensures Val(Rotate11(x)) == Turn(Val(x), 0x800, 0x200000)
  {
    hide Val, Sum;
    BareRotate11(x);
    ValRight21(x);
    RotatedBelow(Val(x), 0x800, 0x200000);
    ValRotate(x, 0x800, Right21(x));
  }

  lemma BareRotate12(x: bv32)
    ensures Sum(x * 0x1000, x >> 20) == (x << 12) | (x >> 20)
    ensures Val(0x1000) == 0x1000
  {
  }

  lemma ValRotate12(x: bv32)
    ensures Val(Rotate12(x)) == Turn(Val(x), 0x1000, 0x100000)
  {
    hide Val, Sum;
    BareRotate12(x);
    ValRight20(x);
    RotatedBelow(Val(x), 0x1000, 0x100000);
    ValRotate(x, 0x1000, Right20(x));
  }

  lemma BareRotate13(x: bv32)
    ensures Sum(x * 0x2000, x >> 19) == (x << 13) | (x >> 19)
    ensures Val(0x2000) == 0x2000
  {
  }

  lemma ValRotate13(x: bv32)
    ensures Val(Rotate13(x)) == Turn(Val(x), 0x2000, 0x80000)
  {
    hide Val, Sum;
    BareRotate13(x);
    ValRight19(x);
    RotatedBelow(Val(x), 0x2000, 0x80000);
    ValRotate(x, 0x2000, Right19(x));
  }

  lemma BareRotate17(x: bv32)
    ensures Sum(x * 0x20000, x >> 15) == (x << 17) | (x >> 15)
    ensures Val(0x20000) == 0x20000
  {
  }

  lemma ValRotate17(x: bv32)
    ensures Val(Rotate17(x)) == Turn(Val(x), 0x20000, 0x8000)
  {
    hide Val, Sum;
    BareRotate17(x);
    ValRight15(x);
    RotatedBelow(Val(x), 0x20000, 0x8000);
    ValRotate(x, 0x20000, Right15(x));
  }

  lemma BareRotate18(x: bv32)
    ensures Sum(x * 0x40000, x >> 14) == (x << 18) | (x >> 14)
    ensures Val(0x40000) == 0x40000
  {
  }

  lemma ValRotate18(x: bv32)
    ensures Val(Rotate18(x)) == Turn(Val(x), 0x40000, 0x4000)
  {
    hide Val, Sum;
    BareRotate18(x);
    ValRight14(x);
    RotatedBelow(Val(x), 0x40000, 0x4000);
    ValRotate(x, 0x40000, Right14(x));
  }

  lemma BareFold13(x: bv32)
    ensures Fold13(x) == Differ(x, x >> 13)
  {
  }

  lemma NamedShift13(x: bv32)
    ensures Differ(x, x >> 13) == Differ(x, Right13(x))
  {
  }

  lemma Fold13Differs(x: bv32)
    ensures Fold13(x) == Differ(x, Right13(x))
  {
    hide Fold13, Differ, Right13;
    BareFold13(x);
    NamedShift13(x);
  }

  lemma ValFold13(x: bv32)
    ensures Val(Fold13(x)) == XorNat(Val(x), Val(x) / 0x2000)
  {
    hide Val, XorNat, Differ, Right13, Fold13;
    Fold13Differs(x);
    ValRight13(x);
    ValDiffer(x, Right13(x));
  }

  lemma BareFold15(x: bv32)
    ensures Fold15(x) == Differ(x, x >> 15)
  {
  }

  lemma NamedShift15(x: bv32)
    ensures Differ(x, x >> 15) == Differ(x, Right15(x))
  {
  }

  lemma Fold15Differs(x: bv32)
    ensures Fold15(x) == Differ(x, Right15(x))
  {
    hide Fold15, Differ, Right15;
    BareFold15(x);
    NamedShift15(x);
  }

  lemma ValFold15(x: bv32)
    ensures Val(Fold15(x)) == XorNat(Val(x), Val(x) / 0x8000)
  {
    hide Val, XorNat, Differ, Right15, Fold15;
    Fold15Differs(x);
    ValRight15(x);
    ValDiffer(x, Right15(x));
  }

  lemma BareFold16(x: bv32)
    ensures Fold16(x) == Differ(x, x >> 16)
  {
  }

  lemma NamedShift16(x: bv32)
    ensures Differ(x, x >> 16) == Differ(x, Right16(x))
  {
  }

  lemma Fold16Differs(x: bv32)
    ensures Fold16(x) == Differ(x, Right16(x))
  {
    hide Fold16, Differ, Right16;
    BareFold16(x);
    NamedShift16(x);
  }

  lemma ValFold16(x: bv32)
    ensures Val(Fold16(x)) == XorNat(Val(x), Val(x) / 0x10000)
  {
    hide Val, XorNat, Differ, Right16, Fold16;
    Fold16Differs(x);
    ValRight16(x);
    ValDiffer(x, Right16(x));
  }

  // ---- The program computes the checksum on integers ----

  lemma ValRound(a: bv32, w: bv32)
    ensures Val(Round(a, w))
         == Turn((Val(a) + Val(w) * 0x85EBCA77) % 0x1_0000_0000, 0x2000, 0x8_0000) * 0x9E3779B1 % 0x1_0000_0000
  {
    hide Val, Turn, Sum, TimesP1, TimesP2, Rotate13;
    ValTimesP2(w);
    ValSum(a, TimesP2(w));
    AddReduced(Val(a), Val(w) * 0x85EBCA77);
    ValRotate13(Sum(a, TimesP2(w)));
    ValTimesP1(Rotate13(Sum(a, TimesP2(w))));
  }

  lemma AddReduced(m: nat, n: nat)
    ensures (m + n % 0x1_0000_0000) % 0x1_0000_0000 == (m + n) % 0x1_0000_0000
  {
  }

  lemma ValMixWord(r: bv32, w: bv32)
    ensures Val(MixWord(r, w))
         == Turn((Val(r) + Val(w) * 0xC2B2AE3D) % 0x1_0000_0000, 0x2_0000, 0x8000) * 0x27D4EB2F % 0x1_0000_0000
  {
    hide Val, Turn, Sum, TimesP3, TimesP4, Rotate17;
    ValTimesP3(w);
    ValSum(r, TimesP3(w));
    AddReduced(Val(r), Val(w) * 0xC2B2AE3D);
    ValRotate17(Sum(r, TimesP3(w)));
    ValTimesP4(Rotate17(Sum(r, TimesP3(w))));
  }

  lemma ValMixOctet(r: bv32, w: bv32)
    ensures Val(MixOctet(r, w))
         == Turn((Val(r) + Val(w) * 0x165667B1) % 0x1_0000_0000, 0x800, 0x20_0000) * 0x9E3779B1 % 0x1_0000_0000
  {
    hide Val, Turn, Sum, TimesP1, TimesP5, Rotate11;
    ValTimesP5(w);
    ValSum(r, TimesP5(w));
    AddReduced(Val(r), Val(w) * 0x165667B1);
    ValRotate11(Sum(r, TimesP5(w)));
    ValTimesP1(Rotate11(Sum(r, TimesP5(w))));
  }

  lemma ValAvalanche(r: bv32)
    ensures Val(Avalanche(r)) == Scrambled(Val(r))
  {
    hide Val, XorNat, Fold15, Fold13, Fold16, TimesP2, TimesP3;
    var a := TimesP2(Fold15(r));
    var b := TimesP3(Fold13(a));
    ValFold15(r);
    ValTimesP2(Fold15(r));
    ValFold13(a);
    ValTimesP3(Fold13(a));
    ValFold16(b);
  }

  // ---- Words and bytes of a stream ----

  lemma NumberIs(data: seq<Byte>)
    requires |data| == 4
    ensures Number(data) == WordAt(Values(data), 0)
  {
    hide Value;
  }

  lemma ValDecode(stream: seq<Byte>, i: nat)
    requires i + 4 <= |stream|
    ensures Val(Decode(stream, i)) == WordAt(Values(stream), i)
  {
    hide Encode, Number, Value, Assemble;
    var data := stream[i..i + 4];
    assert Decode(stream, i) == Decode(data, 0);
    hide Decode;
    EncodeDecode(data);
    NumberIs(data);
    assert Values(data) == Values(stream)[i..i + 4];
  }

  lemma EncodeByte(b: Byte)
    ensures Low8(b as bv32) == b && Drop8(b as bv32) == 0 && Drop8(0) == 0 && Low8(0) == 0
  {
  }

  lemma ValByte(b: Byte)
    ensures Val(b as bv32) == Value(b)
  {
    hide Low8, Drop8, Value;
    EncodeByte(b);
    FullByte();
  }

  lemma ValWordOf(n: nat)
    requires n < 0x1_0000_0000
    ensures Val(WordOf(n)) == n
  {
    hide Encode, Decode, Number, NumberBytes;
    EncodeDecode(NumberBytes(n));
    NumberRoundTrip(n);
  }

  // ---- Blocks, tail and start ----

  lemma {:induction false} ValAbsorb(start: bv32, stream: seq<Byte>, n: nat)
    requires 16 * n <= |stream|
    ensures |BlockWords(stream)| >= n
    ensures Val(Absorb(start, BlockWords(stream)[..n])) == Accumulated(Val(start), Values(stream), n)
  {
    hide Val, Round, Decode, Turn, WordAt, Values;
    if n > 0 {
      var words := BlockWords(stream);
      assert words[..n][..n - 1] == words[..n - 1] && words[..n][n - 1] == Decode(stream, 16 * (n - 1));
      ValAbsorb(start, stream, n - 1);
      ValRound(Absorb(start, words[..n - 1]), words[n - 1]);
      ValDecode(stream, 16 * (n - 1));
    }
  }

  lemma {:induction false} ValMixTail(r: bv32, stream: seq<Byte>, i: nat)
    requires i <= |stream|
    ensures Val(MixTail(r, stream[i..])) == MixedFrom(Val(r), Values(stream), i)
    decreases |stream| - i
  {
    hide Val, MixWord, MixOctet, Decode, Turn, WordAt;
    var tail := stream[i..];
    if i + 4 <= |stream| {
      assert tail[4..] == stream[i + 4..];
      var w := Decode(stream, i);
      SameWordAt(stream, i);
      ValDecode(stream, i);
      ValMixWord(r, w);
      ValMixTail(MixWord(r, w), stream, i + 4);
    } else if i < |stream| {
      assert tail[1..] == stream[i + 1..];
      ValByte(stream[i]);
      ValMixOctet(r, stream[i] as bv32);
      ValMixTail(MixByte(r, stream[i]), stream, i + 1);
    }
  }

  lemma SameWordAt(stream: seq<Byte>, i: nat)
    requires i + 4 <= |stream|
    ensures Decode(stream[i..], 0) == Decode(stream, i)
  {
    hide Assemble;
  }

  lemma ValStart(seed: bv32)
    ensures
      var a := Start(seed);
      && Val(a[0]) == (Val(seed) + 0x9E3779B1 + 0x85EBCA77) % 0x1_0000_0000
      && Val(a[1]) == (Val(seed) + 0x85EBCA77) % 0x1_0000_0000
      && Val(a[2]) == Val(seed) && Val(a[3]) == (Val(seed) - 0x9E3779B1) % 0x1_0000_0000
  {
    hide Val, Sum, Difference;
    ValP1();
    ValP2();
    ValSum(seed, 0x9E3779B1);
    ValSum(Sum(seed, 0x9E3779B1), 0x85EBCA77);
    ValSum(seed, 0x85EBCA77);
    ValDifference(seed, 0x9E3779B1);
    AddRemainder(Val(seed) + 0x9E3779B1, 0x85EBCA77);
  }

  lemma ValBlend(a: seq<bv32>)
    requires |a| == 4
    ensures Val(Blend(a))
         == (Turn(Val(a[0]), 0x2, 0x8000_0000) + Turn(Val(a[1]), 0x80, 0x200_0000)
             + Turn(Val(a[2]), 0x1000, 0x10_0000) + Turn(Val(a[3]), 0x4_0000, 0x4000)) % 0x1_0000_0000
  {
    hide Val, Turn, Sum, Rotate1, Rotate7, Rotate12, Rotate18;
    var x, y, z, t := Rotate1(a[0]), Rotate7(a[1]), Rotate12(a[2]), Rotate18(a[3]);
    ValRotate1(a[0]);
    ValRotate7(a[1]);
    ValRotate12(a[2]);
    ValRotate18(a[3]);
    ValSum(x, y);
    ValSum(Sum(x, y), z);
    ValSum(Sum(Sum(x, y), z), t);
    FourReduced(Val(x), Val(y), Val(z), Val(t));
  }

  lemma FourReduced(x: nat, y: nat, z: nat, t: nat)
    ensures (((x + y) % 0x1_0000_0000 + z) % 0x1_0000_0000 + t) % 0x1_0000_0000 == (x + y + z + t) % 0x1_0000_0000
  {
    AddRemainder(x + y, z);
    AddRemainder(x + y + z, t);
  }

  lemma ValLanes(seed: bv32, stream: seq<Byte>)
    requires |stream| >= 16
    ensures Val(Blend(Lanes(seed, stream))) == Blended(Val(seed), Values(stream)) % 0x1_0000_0000
  {
    hide Val, Turn, Blend, Absorb, Start, Accumulated, BlockWords, Values;
    var n, a := |stream| / 16, Start(seed);
    assert BlockWords(stream)[..n] == BlockWords(stream);
    ValStart(seed);
    ValAbsorb(a[0], stream, n);
    ValAbsorb(a[1], stream, n);
    ValAbsorb(a[2], stream, n);
    ValAbsorb(a[3], stream, n);
    ValBlend(Lanes(seed, stream));
  }

  lemma ShortLane(seed: bv32, stream: seq<Byte>)
    requires |stream| < 16
    ensures Lanes(seed, stream)[2] == seed
  {
  }

  lemma ValMerge(seed: bv32, stream: seq<Byte>)
    ensures
      var start := if |stream| >= 16 then Blended(Val(seed), Values(stream)) else Val(seed) + 0x165667B1;
      Val(Merge(Lanes(seed, stream), |stream| % 0x1_0000_0000, |stream| >= 16))
      == (start + |stream|) % 0x1_0000_0000
  {
    hide Val, Blend, Blended, Lanes, Sum, WordOf, Values;
    var n := WordOf(|stream| % 0x1_0000_0000);
    ValWordOf(|stream| % 0x1_0000_0000);
    if |stream| >= 16 {
      ValLanes(seed, stream);
      ValSum(Blend(Lanes(seed, stream)), n);
      AddBoth(Blended(Val(seed), Values(stream)), |stream|);
    } else {
      ShortLane(seed, stream);
      ValP5();
      ValSum(seed, 0x165667B1);
      ValSum(Sum(seed, 0x165667B1), n);
      AddBoth(Val(seed) + 0x165667B1, |stream|);
    }
  }

  lemma AddBoth(m: nat, n: nat)
    ensures (m % 0x1_0000_0000 + n % 0x1_0000_0000) % 0x1_0000_0000 == (m + n) % 0x1_0000_0000
  {
    AddReduced(m % 0x1_0000_0000, n);
    AddReduced(n, m);
  }

  lemma ValFinish(r: bv32, stream: seq<Byte>, i: nat)
    requires i <= |stream|
    ensures Val(Finish(r, stream[i..])) == Scrambled(MixedFrom(Val(r), Values(stream), i))
  {
    hide Val, Avalanche, MixTail, MixedFrom, Scrambled, Values;
    ValMixTail(r, stream, i);
    ValAvalanche(MixTail(r, stream[i..]));
  }

  /** For every seed and every stream, short or long, the digest the program computes has the value
      of the checksum on integers. */
  lemma HashIsChecksum(seed: bv32, stream: seq<Byte>)
    ensures Val(Hash(seed, stream)) == Checksum(Val(seed), Values(stream))
  {
    hide Val, Hash, Finish, Merge, Lanes, MixedFrom, Scrambled, Blended, Values, Tail;
    var i, bytes := |stream| / 16 * 16, Values(stream);
    var r := Merge(Lanes(seed, stream), |stream| % 0x1_0000_0000, |stream| >= 16);
    HashFromParts(seed, stream);
    TailFrom(stream, i);
    ValMerge(seed, stream);
    ValFinish(r, stream, i);
  }

  lemma TailFrom(stream: seq<Byte>, i: nat)
    requires i == |stream| / 16 * 16
    ensures i <= |stream| && Tail(stream) == stream[i..]
  {
  }

  // ---- Known values ----

  lemma ShortMerge(seed: bv32, stream: seq<Byte>, size: bv32)
    requires |stream| < 16 && Val(size) == |stream|
    ensures Merge(Lanes(seed, stream), |stream| % 0x1_0000_0000, false) == Sum(Sum(seed, 0x165667B1), size)
  {
    hide Val, Lanes, Sum, WordOf, Blend;
    ShortLane(seed, stream);
    ValWordOf(|stream|);
    ValInjective(WordOf(|stream|), size);
  }

  lemma ShortHash(seed: bv32, stream: seq<Byte>, size: bv32)
    requires |stream| < 16 && Val(size) == |stream|
    ensures Hash(seed, stream) == Finish(Sum(Sum(seed, 0x165667B1), size), stream)
  {
    hide Val, Hash, Finish, Lanes, Sum, Merge;
    HashFromParts(seed, stream);
    ShortMerge(seed, stream, size);
    assert Tail(stream) == stream;
  }

  /** The digests of the empty stream, of "a" and of "abcde", whose tail has a word and a byte. */
  lemma KnownDigests()
    ensures Hash(0, []) == 0x02CC5D05
    ensures Hash(0, [0x61]) == 0x550D7456
    ensures Hash(0, [0x61, 0x62, 0x63, 0x64, 0x65]) == 0x9738F19B
  {
    hide Hash, Finish, Val, Sum;
    KnownSizes();
    ShortHash(0, [], 0);
    ShortHash(0, [0x61], 1);
    ShortHash(0, [0x61, 0x62, 0x63, 0x64, 0x65], 5);
    KnownEmpty();
    KnownByte();
    KnownWordAndByte();
  }

  lemma KnownSizes()
    ensures Val(0) == 0 && Val(1) == 1 && Val(5) == 5 && Val(21) == 21
  {
    hide Val;
    ValZero();
    ValOne();
    ValFive();
    ValTwentyOne();
  }

  lemma ValFive()
    ensures Val(5) == 5
  {
  }

  lemma ValTwentyOne()
    ensures Val(21) == 21
  {
  }

  /** The digest of a block of zeros followed by "abcde". */
  lemma KnownLongDigest()
    ensures Hash(0, BlockOf(0) + [0x61, 0x62, 0x63, 0x64, 0x65]) == 0x119A7FE9
  {
    hide Hash, Finish, Val, Lanes, Blend, RoundLanes, Sum, WordOf, BlockOf;
    var tail := [0x61, 0x62, 0x63, 0x64, 0x65];
    HashAfterBlocks(0, BlockOf(0), tail, 21);
    OneBlock(0);
    KnownSizes();
    ValWordOf(21);
    ValInjective(WordOf(21), 21);
    KnownBlend();
    KnownLongFinish();
  }

  lemma KnownBlend()
    ensures Blend(RoundLanes(Start(0), 0)) == 0x34F8C758
  {
  }

  lemma KnownLongFinish()
    ensures Finish(Sum(0x34F8C758, 21), [0x61, 0x62, 0x63, 0x64, 0x65]) == 0x119A7FE9
  {
  }

  lemma KnownEmpty()
    ensures Finish(Sum(Sum(0, 0x165667B1), 0), []) == 0x02CC5D05
  {
  }

  lemma KnownByte()
    ensures Finish(Sum(Sum(0, 0x165667B1), 1), [0x61]) == 0x550D7456
  {
  }

  lemma KnownWordAndByte()
    ensures Finish(Sum(Sum(0, 0x165667B1), 5), [0x61, 0x62, 0x63, 0x64, 0x65]) == 0x9738F19B
  {
  }
}
