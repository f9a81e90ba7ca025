/** 32-bit words as integers: what wrap-around arithmetic, shifts, rotations and exclusive-or on words
    do to their values. */
module WordValues {
  import opened Bytes
  import opened Words

  const M: nat := 0x1_0000_0000

  /** The value of a word: that of its bytes in little-endian memory. */
  function Val(w: bv32): (n: nat)
    ensures n < M
  {
    Number(Encode(w))
  }

  lemma ValInjective(v: bv32, w: bv32)
    requires Val(v) == Val(w)
    ensures v == w
  {
    hide Encode, Decode, Number;
    NumberInjective(Encode(v), Encode(w));
    DecodeEncode(v);
    DecodeEncode(w);
  }

  lemma NumberInjective(a: seq<Byte>, b: seq<Byte>)
    requires |a| == |b| == 4 && Number(a) == Number(b)
    ensures a == b
  {
    hide Value, Joined;
    var x := [Value(a[0]), Value(a[1]), Value(a[2]), Value(a[3])];
    var y := [Value(b[0]), Value(b[1]), Value(b[2]), Value(b[3])];
    OctetsJoined(x);
    OctetsJoined(y);
    assert x == y;
    assert Value(a[0]) == x[0] && Value(a[1]) == x[1] && Value(a[2]) == x[2] && Value(a[3]) == x[3];
    SameValue(a[0], b[0]);
    SameValue(a[1], b[1]);
    SameValue(a[2], b[2]);
    SameValue(a[3], b[3]);
  }

  lemma SameValue(x: Byte, y: Byte)
    requires Value(x) == Value(y)
    ensures x == y
  {
    if x != y {
      ValueInjective(x, y);
    }
  }

  // ---- Counting ----

  // Each operation has a name, so that proofs about values see no bit-vector arithmetic; each law is
  // stated first on the bare expressions.

  function Next(w: bv32): (v: bv32) { w + 1 }

  function Prev(w: bv32): (v: bv32) { w - 1 }

  lemma FirstByteNext(w: bv32)
    ensures Low8(Next(w)) == Low8(w) + 1
  {
  }

  lemma SecondByteNext(w: bv32)
    ensures Low8(Drop8(Next(w)))
         == if Low8(w) == 0xFF then Low8(Drop8(w)) + 1 else Low8(Drop8(w))
  {
  }

  lemma ThirdByteNext(w: bv32)
    ensures Low8(Drop8(Drop8(Next(w))))
         == if Low8(w) == 0xFF && Low8(Drop8(w)) == 0xFF then Low8(Drop8(Drop8(w))) + 1 else Low8(Drop8(Drop8(w)))
  {
  }

  lemma FourthByteNext(w: bv32)
    ensures Low8(Drop8(Drop8(Drop8(Next(w)))))
         == if Low8(w) == 0xFF && Low8(Drop8(w)) == 0xFF && Low8(Drop8(Drop8(w))) == 0xFF
            then Low8(Drop8(Drop8(Drop8(w)))) + 1 else Low8(Drop8(Drop8(Drop8(w))))
  {
  }

  /** The lowest byte that is not full goes up, those below it become zero. */
  lemma EncodeNext(w: bv32)
    ensures
      var e, f := Encode(w), Encode(Next(w));
      && f[0] == e[0] + 1
      && f[1] == (if e[0] == 0xFF then e[1] + 1 else e[1])
      && f[2] == (if e[0] == 0xFF && e[1] == 0xFF then e[2] + 1 else e[2])
      && f[3] == (if e[0] == 0xFF && e[1] == 0xFF && e[2] == 0xFF then e[3] + 1 else e[3])
  {
    hide Low8, Drop8, Next;
    FirstByteNext(w);
    SecondByteNext(w);
    ThirdByteNext(w);
    FourthByteNext(w);
  }

  lemma FullByte()
    ensures Value(0xFF) == 255 && Value(0) == 0 && Value(1) == 1
  {
  }

  lemma ByteValueNext(b: Byte, c: Byte)
    requires c == b + 1
    ensures Value(c) == if b == 0xFF then 0 else Value(b) + 1
  {
    if b == 0xFF {
      FullByte();
      Wraps(b);
    } else {
      ByteNext(b);
    }
  }

  lemma Wraps(b: Byte)
    requires b == 0xFF
    ensures b + 1 == 0
  {
  }

  lemma ValNext(w: bv32)
    ensures Val(Next(w)) == if Val(w) == M - 1 then 0 else Val(w) + 1
  {
    hide Encode, Value, Next;
    var e, f := Encode(w), Encode(Next(w));
    EncodeNext(w);
    FullByte();
    ByteValueNext(e[0], f[0]);
    if e[0] == 0xFF {
      ByteValueNext(e[1], f[1]);
      if e[1] == 0xFF {
        ByteValueNext(e[2], f[2]);
        if e[2] == 0xFF {
          ByteValueNext(e[3], f[3]);
          if e[3] != 0xFF {
            NotFull(e[3]);
          }
        } else {
          NotFull(e[2]);
        }
      } else {
        NotFull(e[1]);
      }
    } else {
      NotFull(e[0]);
    }
  }

  lemma NotFull(b: Byte)
    requires b != 0xFF
    ensures Value(b) < 255
  {
    FullByte();
    ValueInjective(b, 0xFF);
  }

  lemma ValZero()
    ensures Val(0) == 0
  {
    FullByte();
  }

  lemma NextPrev(w: bv32)
    ensures Next(Prev(w)) == w
  {
  }

  /** Every word but zero follows another. */
  lemma ValPrev(w: bv32)
    requires w != 0
    ensures Val(w) > 0 && Val(Prev(w)) == Val(w) - 1
  {
    hide Val, Next, Prev;
    ValZero();
    if Val(w) == 0 {
      ValInjective(w, 0);
    }
    NextPrev(w);
    ValNext(Prev(w));
  }

  // ---- Arithmetic ----

  function Sum(x: bv32, y: bv32): (w: bv32) { x + y }

  lemma BareSumNext(x: bv32, y: bv32)
    ensures Sum(x, y + 1) == Next(x + y) && Sum(x, 0) == x
  {
  }

  lemma SumNext(x: bv32, y: bv32)
    ensures Sum(x, Next(y)) == Next(Sum(x, y)) && Sum(x, 0) == x
  {
    BareSumNext(x, y);
  }

  lemma {:induction false} ValSum(x: bv32, y: bv32)
    ensures Val(Sum(x, y)) == (Val(x) + Val(y)) % M
    decreases Val(y)
  {
    hide Val, Sum, Next, Prev;
    ValZero();
    var z := Prev(y);
    SumNext(x, z);
    if y != 0 {
      NextPrev(y);
      ValPrev(y);
      ValSum(x, z);
      ValNext(Sum(x, z));
      NextRemainder(Val(x) + Val(z));
    }
  }

  lemma NextRemainder(n: nat)
    ensures (n + 1) % M == if n % M == M - 1 then 0 else n % M + 1
  {
  }

  function Difference(x: bv32, y: bv32): (w: bv32) { x - y }

  lemma BareDifference(x: bv32, y: bv32)
    ensures Sum(x - y, y) == x
  {
  }

  lemma DifferenceSum(x: bv32, y: bv32)
    ensures Sum(Difference(x, y), y) == x
  {
    BareDifference(x, y);
  }

  lemma ValDifference(x: bv32, y: bv32)
    ensures Val(Difference(x, y)) == (Val(x) - Val(y)) % M
  {
    hide Val, Sum, Difference;
    DifferenceSum(x, y);
    ValSum(Difference(x, y), y);
  }

  function Product(x: bv32, y: bv32): (w: bv32) { x * y }

  lemma BareProductNext(x: bv32, y: bv32)
    ensures Product(x, y + 1) == Sum(x * y, x) && Product(x, 0) == 0
  {
  }

  lemma ProductNextBare(x: bv32, y: bv32)
    ensures Product(x, Next(y)) == Sum(x * y, x) && Product(x, 0) == 0
  {
    BareProductNext(x, y);
  }

  lemma BareProduct(x: bv32, y: bv32)
    ensures Sum(x * y, x) == Sum(Product(x, y), x)
  {
  }

  lemma ProductNext(x: bv32, y: bv32)
    ensures Product(x, Next(y)) == Sum(Product(x, y), x) && Product(x, 0) == 0
  {
    hide Sum, Next, Product;
    ProductNextBare(x, y);
    BareProduct(x, y);
  }

  lemma BareAssociative(x: bv32, y: bv32, z: bv32)
    ensures Product(x * y, z) == Product(x, y * z)
  {
  }

  lemma NamedLeft(x: bv32, y: bv32, z: bv32)
    ensures Product(x * y, z) == Product(Product(x, y), z)
  {
  }

  lemma NamedRight(x: bv32, y: bv32, z: bv32)
    ensures Product(x, y * z) == Product(x, Product(y, z))
  {
  }

  lemma ProductAssociative(x: bv32, y: bv32, z: bv32)
    ensures Product(Product(x, y), z) == Product(x, Product(y, z)) && Product(x, 1) == x
  {
    assert Product(x, 1) == x;
    hide Product;
    BareAssociative(x, y, z);
    NamedLeft(x, y, z);
    NamedRight(x, y, z);
  }

  lemma {:induction false} ValProduct(x: bv32, y: bv32)
    ensures Val(Product(x, y)) == (Val(x) * Val(y)) % M
    decreases Val(y)
  {
    hide Val, Sum, Product, Prev, Next;
    ValZero();
    var z := Prev(y);
    ProductNext(x, z);
    if y != 0 {
      NextPrev(y);
      ValPrev(y);
      ValProduct(x, z);
      ValSum(Product(x, z), x);
      MoreByOne(Val(x), Val(z));
    }
  }

  lemma MoreByOne(m: nat, n: nat)
    ensures (m * n % M + m) % M == m * (n + 1) % M
  {
    AddRemainder(m * n, m);
    assert m * n + m == m * (n + 1);
  }

  lemma AddRemainder(m: nat, n: nat)
    ensures (m % M + n) % M == (m + n) % M
  {
  }

  // ---- Shifts ----

  function Odd(w: bv32): (b: bv32) { w & 1 }

  lemma BareHalves(w: bv32)
    ensures Sum((w >> 1) + (w >> 1), w & 1) == w
  {
  }

  lemma BareTwice(v: bv32, b: bv32)
    ensures Sum(v + v, b) == Sum(Sum(v, v), b)
  {
  }

  lemma Halves(w: bv32)
    ensures Sum(Sum(Half(w), Half(w)), Odd(w)) == w
  {
    hide Sum;
    BareHalves(w);
    BareTwice(w >> 1, w & 1);
  }

  lemma OddIsBit(w: bv32)
    ensures Odd(w) == 0 || Odd(w) == 1
  {
  }

  lemma ValOne()
    ensures Val(1) == 1
  {
    FullByte();
  }

  lemma HalfTop(w: bv32)
    ensures Low8(Drop8(Drop8(Drop8(Half(w))))) & 0x80 == 0
  {
  }

  lemma SmallByte(b: Byte)
    requires b & 0x80 == 0
    ensures Value(b) < 128
  {
  }

  lemma HalfSmall(w: bv32)
    ensures Val(Half(w)) < 0x8000_0000
  {
    hide Low8, Drop8, Half, Value;
    HalfTop(w);
    SmallByte(Encode(Half(w))[3]);
  }

  lemma ValHalf(w: bv32)
    ensures Val(Half(w)) == Val(w) / 2 && Val(Odd(w)) == Val(w) % 2
  {
    hide Val, Half, Odd, Sum;
    var h := Half(w);
    Halves(w);
    ValSum(h, h);
    ValSum(Sum(h, h), Odd(w));
    HalfSmall(w);
    OddIsBit(w);
    ValZero();
    ValOne();
  }

  function Down2(w: bv32): (v: bv32) { Half(Half(w)) }

  function Down4(w: bv32): (v: bv32) { Down2(Down2(w)) }

  function Down8(w: bv32): (v: bv32) { Down4(Down4(w)) }

  function Down16(w: bv32): (v: bv32) { Down8(Down8(w)) }

  lemma ValDown2(w: bv32)
    ensures Val(Down2(w)) == Val(w) / 4
  {
    hide Val, Half;
    ValHalf(w);
    ValHalf(Half(w));
  }

  lemma ValDown4(w: bv32)
    ensures Val(Down4(w)) == Val(w) / 16
  {
    hide Val, Down2;
    ValDown2(w);
    ValDown2(Down2(w));
  }

  lemma ValDown8(w: bv32)
    ensures Val(Down8(w)) == Val(w) / 256
  {
    hide Val, Down4;
    ValDown4(w);
    ValDown4(Down4(w));
  }

  lemma ValDown16(w: bv32)
    ensures Val(Down16(w)) == Val(w) / 65536
  {
    hide Val, Down8;
    ValDown8(w);
    ValDown8(Down8(w));
  }

  // One function for each amount the checksums shift by.

  function Right13(w: bv32): (v: bv32) { w >> 13 }

  lemma Right13IsDown(w: bv32)
    ensures Right13(w) == Half(Down4(Down8(w)))
  {
  }

  lemma ValRight13(w: bv32)
    ensures Val(Right13(w)) == Val(w) / 0x2000
  {
    hide Val, Half, Down2, Down4, Down8, Down16, Right13;
    Right13IsDown(w);
    ValDown8(w);
    ValDown4(Down8(w));
    ValHalf(Down4(Down8(w)));
  }

  function Right14(w: bv32): (v: bv32) { w >> 14 }

  lemma Right14IsDown(w: bv32)
    ensures Right14(w) == Down2(Down4(Down8(w)))
  {
  }

  lemma ValRight14(w: bv32)
    ensures Val(Right14(w)) == Val(w) / 0x4000
  {
    hide Val, Half, Down2, Down4, Down8, Down16, Right14;
    Right14IsDown(w);
    ValDown8(w);
    ValDown4(Down8(w));
    ValDown2(Down4(Down8(w)));
  }

  function Right15(w: bv32): (v: bv32) { w >> 15 }

  lemma Right15IsDown(w: bv32)
    ensures Right15(w) == Half(Down2(Down4(Down8(w))))
  {
  }

  lemma ValRight15(w: bv32)
    ensures Val(Right15(w)) == Val(w) / 0x8000
  {
    hide Val, Half, Down2, Down4, Down8, Down16, Right15;
    Right15IsDown(w);
    ValDown8(w);
    ValDown4(Down8(w));
    ValDown2(Down4(Down8(w)));
    ValHalf(Down2(Down4(Down8(w))));
  }

  function Right16(w: bv32): (v: bv32) { w >> 16 }

  lemma Right16IsDown(w: bv32)
    ensures Right16(w) == Down16(w)
  {
  }

  lemma ValRight16(w: bv32)
    ensures Val(Right16(w)) == Val(w) / 0x10000
  {
    hide Val, Half, Down2, Down4, Down8, Down16, Right16;
    Right16IsDown(w);
    ValDown16(w);
  }

  function Right19(w: bv32): (v: bv32) { w >> 19 }

  lemma Right19IsDown(w: bv32)
    ensures Right19(w) == Half(Down2(Down16(w)))
  {
  }

  lemma ValRight19(w: bv32)
    ensures Val(Right19(w)) == Val(w) / 0x80000
  {
    hide Val, Half, Down2, Down4, Down8, Down16, Right19;
    Right19IsDown(w);
    ValDown16(w);
    ValDown2(Down16(w));
    ValHalf(Down2(Down16(w)));
  }

  function Right20(w: bv32): (v: bv32) { w >> 20 }

  lemma Right20IsDown(w: bv32)
    ensures Right20(w) == Down4(Down16(w))
  {
  }

  lemma ValRight20(w: bv32)
    ensures Val(Right20(w)) == Val(w) / 0x100000
  {
    hide Val, Half, Down2, Down4, Down8, Down16, Right20;
    Right20IsDown(w);
    ValDown16(w);
    ValDown4(Down16(w));
  }

  function Right21(w: bv32): (v: bv32) { w >> 21 }

  lemma Right21IsDown(w: bv32)
    ensures Right21(w) == Half(Down4(Down16(w)))
  {
  }

  lemma ValRight21(w: bv32)
    ensures Val(Right21(w)) == Val(w) / 0x200000
  {
    hide Val, Half, Down2, Down4, Down8, Down16, Right21;
    Right21IsDown(w);
    ValDown16(w);
    ValDown4(Down16(w));
    ValHalf(Down4(Down16(w)));
  }

  function Right25(w: bv32): (v: bv32) { w >> 25 }

  lemma Right25IsDown(w: bv32)
    ensures Right25(w) == Half(Down8(Down16(w)))
  {
  }

  lemma ValRight25(w: bv32)
    ensures Val(Right25(w)) == Val(w) / 0x2000000
  {
    hide Val, Half, Down2, Down4, Down8, Down16, Right25;
    Right25IsDown(w);
    ValDown16(w);
    ValDown8(Down16(w));
    ValHalf(Down8(Down16(w)));
  }

  function Right31(w: bv32): (v: bv32) { w >> 31 }

  lemma Right31IsDown(w: bv32)
    ensures Right31(w) == Half(Down2(Down4(Down8(Down16(w)))))
  {
  }

  lemma ValRight31(w: bv32)
    ensures Val(Right31(w)) == Val(w) / 0x80000000
  {
    hide Val, Half, Down2, Down4, Down8, Down16, Right31;
    Right31IsDown(w);
    ValDown16(w);
    ValDown8(Down16(w));
    ValDown4(Down8(Down16(w)));
    ValDown2(Down4(Down8(Down16(w))));
    ValHalf(Down2(Down4(Down8(Down16(w)))));
  }

  // ---- Rotations ----

  lemma RotatedBelow(v: nat, p: nat, q: nat)
    requires p > 0 && q > 0 && p * q == M && v < M
    ensures v * p % M + v / q < M
  {
    var r, k := v % q, v / q;
    var a := r * p;
    Regroup(v, p, q, k, r);
    BelowOneTurn(r, p, q);
    Cancel(k, p, q);
    FullTurns(a, k);
    NoTurn(a);
  }

  lemma Regroup(v: nat, p: nat, q: nat, k: nat, r: nat)
    requires q > 0 && k == v / q && r == v % q && p * q == M
    ensures v == k * q + r && v * p == r * p + k * M
  {
    assert v == k * q + r;
    assert (k * q + r) * p == k * q * p + r * p;
    assert k * q * p == k * (p * q);
  }

  lemma BelowOneTurn(r: nat, p: nat, q: nat)
    requires r < q
    ensures r * p + p <= p * q
  {
    assert (r + 1) * p <= q * p;
  }

  lemma Cancel(k: nat, p: nat, q: nat)
    requires k * q < p * q
    ensures k < p
  {
  }

  lemma FullTurns(r: nat, k: nat)
    ensures (r + k * M) % M == r % M
  {
  }

  /** Shifting out to the left and in at the right, when what comes in fits below what is left. */
  lemma ValRotate(x: bv32, factor: bv32, right: bv32)
    requires Val(x) * Val(factor) % M + Val(right) < M
    ensures Val(Sum(Product(x, factor), right)) == Val(x) * Val(factor) % M + Val(right)
  {
    hide Val, Sum, Product;
    ValProduct(x, factor);
    ValSum(Product(x, factor), right);
    NoTurn(Val(x) * Val(factor) % M + Val(right));
  }

  lemma NoTurn(n: nat)
    requires n < M
    ensures n % M == n
  {
  }

  // ---- Exclusive-or ----

  /** Exclusive-or of numbers, binary digit by binary digit. */
  function XorNat(a: nat, b: nat): (r: nat)
    decreases a + b
  {
    if a == 0 && b == 0 then 0
    else (if a % 2 == b % 2 then 0 else 1) + 2 * XorNat(a / 2, b / 2)
  }

  function Differ(x: bv32, y: bv32): (w: bv32) { x ^ y }

  lemma DifferHalf(x: bv32, y: bv32)
    ensures Half(Differ(x, y)) == Differ(Half(x), Half(y))
  {
  }

  lemma DifferOdd(x: bv32, y: bv32)
    ensures Odd(Differ(x, y)) == if Odd(x) == Odd(y) then 0 else 1
  {
  }

  lemma DifferZero()
    ensures Differ(0, 0) == 0
  {
  }

  lemma {:induction false} ValDiffer(x: bv32, y: bv32)
    ensures Val(Differ(x, y)) == XorNat(Val(x), Val(y))
    decreases Val(x) + Val(y)
  {
    hide Val, Half, Odd, Differ;
    ValZero();
    if Val(x) == 0 && Val(y) == 0 {
      ValInjective(x, 0);
      ValInjective(y, 0);
      DifferZero();
    } else {
      ValHalf(x);
      ValHalf(y);
      ValHalf(Differ(x, y));
      ValDiffer(Half(x), Half(y));
      DifferHalf(x, y);
      DifferOdd(x, y);
      ValOne();
      SameOdd(x, y);
    }
  }

  lemma SameOdd(x: bv32, y: bv32)
    ensures Odd(x) == Odd(y) <==> Val(Odd(x)) == Val(Odd(y))
  {
    hide Val, Odd;
    if Val(Odd(x)) == Val(Odd(y)) {
      ValInjective(Odd(x), Odd(y));
    }
  }
}
