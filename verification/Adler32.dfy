/** The Adler-32 checksum: the streaming update, its closed form (section 2.2 of RFC 1950),
    the combine law, and exactly which byte changes and byte swaps it detects. */
module Adler32 {
  import opened Bytes

  newtype uint32 = x: int | 0 <= x < 0x1_0000_0000

  const BASE := 65521

  /** The two running sums held in a digest. */
  datatype Sums = Sums(s1: nat, s2: nat) {
    predicate Halves() { s1 < 0x10000 && s2 < 0x10000 }
    predicate Reduced() { s1 < BASE && s2 < BASE }
  }

  function Unpack(digest: uint32): (s: Sums)
    ensures s.Halves()
  {
    Sums(digest as int % 0x10000, digest as int / 0x10000)
  }

  function Pack(s: Sums): (digest: uint32)
    requires s.Halves()
  {
    (s.s2 * 0x10000 + s.s1) as uint32
  }

  lemma PackUnpack(digest: uint32)
    ensures Pack(Unpack(digest)) == digest
  {
  }

  lemma PackInjective(s: Sums, t: Sums)
    requires s.Halves() && t.Halves()
    ensures Unpack(Pack(s)) == s
    ensures Pack(s) == Pack(t) ==> s == t
  {
  }

  function Step(s: Sums, b: nat): (r: Sums)
    ensures r.Reduced()
  {
    var s1 := (s.s1 + b) % BASE;
    Sums(s1, (s.s2 + s1) % BASE)
  }

  function Fold(s: Sums, data: seq<nat>): (r: Sums)
    ensures data != [] ==> r.Reduced()
    ensures s.Halves() ==> r.Halves()
    ensures s.Reduced() ==> r.Reduced()
  {
    if data == [] then s else Step(Fold(s, data[..|data| - 1]), data[|data| - 1])
  }

  /** The digest after feeding `data` to a checksum holding `digest`. */
  function Update(digest: uint32, data: seq<Byte>): (r: uint32) {
    Pack(Fold(Unpack(digest), Values(data)))
  }

  const INITIAL: uint32 := 1

  /** The Adler-32 of a byte stream. */
  function Digest(data: seq<Byte>): (r: uint32) {
    Update(INITIAL, data)
  }

  // ---- Streaming ----

  lemma {:induction false} FoldAppend(s: Sums, a: seq<nat>, b: seq<nat>)
    ensures Fold(s, a + b) == Fold(Fold(s, a), b)
  {
    if b == [] {
      assert a + b == a;
    } else {
      var init := b[..|b| - 1];
      assert (a + b)[..|a + b| - 1] == a + init;
      FoldAppend(s, a, init);
    }
  }

  lemma FoldSnoc(s: Sums, data: seq<nat>, i: nat)
    requires i < |data|
    ensures Fold(s, data[..i + 1]) == Step(Fold(s, data[..i]), data[i])
  {
    assert data[..i + 1][..i] == data[..i];
  }

  lemma UpdateAppend(digest: uint32, a: seq<Byte>, b: seq<Byte>)
    ensures Update(digest, a + b) == Update(Update(digest, a), b)
  {
    var s := Unpack(digest);
    ValuesAppend(a, b);
    FoldAppend(s, Values(a), Values(b));
    PackInjective(Fold(s, Values(a)), s);
  }

  lemma UpdateNothing(digest: uint32)
    ensures Update(digest, []) == digest
  {
    PackUnpack(digest);
  }

  /** The digest after a series of updates. */
  function UpdateAll(digest: uint32, chunks: seq<seq<Byte>>): (r: uint32) {
    if chunks == [] then digest
    else Update(UpdateAll(digest, chunks[..|chunks| - 1]), chunks[|chunks| - 1])
  }

  /** The digest depends only on the bytes, never on how they were cut. */
  lemma {:induction false} ChunkIndependent(digest: uint32, chunks: seq<seq<Byte>>)
    ensures UpdateAll(digest, chunks) == Update(digest, Concat(chunks))
  {
    if chunks == [] {
      UpdateNothing(digest);
    } else {
      var init := chunks[..|chunks| - 1];
      ChunkIndependent(digest, init);
      UpdateAppend(digest, Concat(init), chunks[|chunks| - 1]);
    }
  }

  // ---- Closed form ----

  /** The sum of the first `k` values. */
  function Sum(data: seq<nat>, k: nat): (r: nat)
    requires k <= |data|
  {
    if k == 0 then 0 else Sum(data, k - 1) + data[k - 1]
  }

  /** The sum of `(n - i) * data[i]` over the first `k` values. */
  function Weighted(data: seq<nat>, n: nat, k: nat): (r: nat)
    requires k <= |data| && k <= n
  {
    if k == 0 then 0 else Weighted(data, n, k - 1) + (n - (k - 1)) * data[k - 1]
  }

  function Total(data: seq<nat>): (r: nat) { Sum(data, |data|) }

  function Moment(data: seq<nat>): (r: nat) { Weighted(data, |data|, |data|) }

  lemma {:induction false} SumPrefix(a: seq<nat>, b: seq<nat>, k: nat)
    requires k <= |a|
    ensures Sum(a + b, k) == Sum(a, k)
  {
    if k > 0 {
      SumPrefix(a, b, k - 1);
    }
  }

  lemma {:induction false} WeightedPrefix(a: seq<nat>, b: seq<nat>, n: nat, k: nat)
    requires k <= |a| && k <= n
    ensures Weighted(a + b, n, k) == Weighted(a, n, k)
  {
    if k > 0 {
      WeightedPrefix(a, b, n, k - 1);
    }
  }

  /** Giving every value one more unit of weight adds the plain sum. */
  lemma {:induction false} WeightedShift(data: seq<nat>, n: nat, k: nat)
    requires k <= |data| && k <= n
    ensures Weighted(data, n + 1, k) == Weighted(data, n, k) + Sum(data, k)
  {
    if k > 0 {
      WeightedShift(data, n, k - 1);
      assert (n + 1 - (k - 1)) * data[k - 1] == (n - (k - 1)) * data[k - 1] + data[k - 1];
    }
  }

  lemma TotalSnoc(a: seq<nat>, b: nat)
    ensures Total(a + [b]) == Total(a) + b
  {
    SumPrefix(a, [b], |a|);
  }

  lemma MomentSnoc(a: seq<nat>, b: nat)
    ensures Moment(a + [b]) == Moment(a) + Total(a) + b
  {
    WeightedPrefix(a, [b], |a| + 1, |a|);
    WeightedShift(a, |a|, |a|);
    assert (|a| + 1 - |a|) * b == b;
  }

  /** Reduction modulo 65521 subtracts a multiple of 65521. */
  lemma Reduce(x: nat) returns (q: nat)
    ensures x % BASE == x - BASE * q
  {
    q := x / BASE;
  }

  lemma Reduced(x: int, r: int, q: int)
    requires r == x - BASE * q && 0 <= r < BASE
    ensures x % BASE == r
  {
  }

  lemma StepQuotients(s: Sums, b: nat) returns (q1: int, q2: int)
    ensures Step(s, b).s1 == s.s1 + b - BASE * q1
    ensures Step(s, b).s2 == s.s2 + s.s1 + b - BASE * q2
  {
    q1 := Reduce(s.s1 + b);
    var q := Reduce(s.s2 + (s.s1 + b) % BASE);
    q2 := q + q1;
  }

  /** Adler-32 is two weighted sums less multiples of 65521, from any start. */
  lemma {:induction false} ClosedForm(s: Sums, data: seq<nat>) returns (k1: int, k2: int)
    ensures Fold(s, data).s1 == s.s1 + Total(data) - BASE * k1
    ensures Fold(s, data).s2 == s.s2 + |data| * s.s1 + Moment(data) - BASE * k2
  {
    if data == [] {
      k1, k2 := 0, 0;
    } else {
      var init, b := data[..|data| - 1], data[|data| - 1];
      assert data == init + [b];
      var i1, i2 := ClosedForm(s, init);
      var q1, q2 := StepQuotients(Fold(s, init), b);
      k1, k2 := i1 + q1, i2 + i1 + q2;
      TotalSnoc(init, b);
      MomentSnoc(init, b);
      Successor(|init|, s.s1);
    }
  }

  /** Section 2.2 of RFC 1950: from the initial value 1, the low half is one plus the sum of
      the bytes and the high half is the length plus the position-weighted sum. */
  lemma DigestClosedForm(data: seq<Byte>)
    ensures Unpack(Digest(data))
         == Sums((1 + Total(Values(data))) % 65521, (|data| + Moment(Values(data))) % 65521)
    ensures Digest(data) as int
         == (|data| + Moment(Values(data))) % 65521 * 0x10000 + (1 + Total(Values(data))) % 65521
  {
    var start, values := Sums(1, 0), Values(data);
    StartUnpacked();
    var f := Fold(start, values);
    var k1, k2 := ClosedForm(start, values);
    Reduced(1 + Total(values), f.s1, k1);
    Reduced(|data| + Moment(values), f.s2, k2);
    PackInjective(f, start);
  }

  lemma StartUnpacked()
    ensures Unpack(INITIAL) == Sums(1, 0)
  {
  }

  // ---- Combining two digests ----

  lemma {:induction false} TotalAppend(a: seq<nat>, b: seq<nat>)
    ensures Total(a + b) == Total(a) + Total(b)
  {
    if b == [] {
      assert a + b == a;
    } else {
      var init, last := b[..|b| - 1], b[|b| - 1];
      assert b == init + [last] && a + b == (a + init) + [last];
      TotalAppend(a, init);
      TotalSnoc(a + init, last);
      TotalSnoc(init, last);
    }
  }

  lemma {:induction false} MomentAppend(a: seq<nat>, b: seq<nat>)
    ensures Moment(a + b) == Moment(a) + |b| * Total(a) + Moment(b)
  {
    if b == [] {
      assert a + b == a;
    } else {
      var init, last := b[..|b| - 1], b[|b| - 1];
      assert b == init + [last] && a + b == (a + init) + [last];
      MomentAppend(a, init);
      MomentSnoc(a + init, last);
      MomentSnoc(init, last);
      TotalAppend(a, init);
      Successor(|init|, Total(a));
    }
  }

  lemma Successor(n: nat, t: nat)
    ensures (n + 1) * t == n * t + t
  {
  }

  /** The sums of a concatenation, computed from the sums of its parts and the second length. */
  function CombineSums(a: Sums, b: Sums, secondLength: nat): (r: Sums)
    ensures r.Reduced()
  {
    Sums((a.s1 + b.s1 + BASE - 1) % BASE, (a.s2 + b.s2 + secondLength * (a.s1 + BASE - 1)) % BASE)
  }

  /** The digest of a concatenation, computed from the two digests and the second length. */
  function Combine(first: uint32, second: uint32, secondLength: nat): (r: uint32) {
    Pack(CombineSums(Unpack(first), Unpack(second), secondLength))
  }

  /** `CombineSums` reduces the unreduced sums, whatever multiples of 65521 were dropped. */
  lemma CombineReduces(x: Sums, y: Sums, n: nat, total: int, k: int, r: Sums, q1: int, q2: int)
    requires x.s1 - 1 == total - BASE * k && r.Reduced()
    requires r.s1 == x.s1 + y.s1 - 1 - BASE * q1
    requires r.s2 == x.s2 + y.s2 + n * total - BASE * q2
    ensures CombineSums(x, y, n) == r
  {
    var f := x.s1 + BASE - 1;
    assert f == total + BASE * (1 - k);
    assert n * f == n * total + BASE * (n * (1 - k)) by { Scale(n, total, 1 - k); }
    Reduced(x.s1 + y.s1 + BASE - 1, r.s1, q1 + 1);
    Reduced(x.s2 + y.s2 + n * f, r.s2, q2 + n * (1 - k));
  }

  lemma Scale(n: int, t: int, k: int)
    ensures n * (t + BASE * k) == n * t + BASE * (n * k)
  {
  }

  lemma CombineFolds(a: seq<nat>, b: seq<nat>)
    ensures Fold(Sums(1, 0), a + b)
         == CombineSums(Fold(Sums(1, 0), a), Fold(Sums(1, 0), b), |b|)
  {
    var start := Sums(1, 0);
    var x, y, z := Fold(start, a), Fold(start, b), Fold(start, a + b);
    var x1, x2 := ClosedForm(start, a);
    var y1, y2 := ClosedForm(start, b);
    var z1, z2 := ClosedForm(start, a + b);
    TotalAppend(a, b);
    MomentAppend(a, b);
    CombineReduces(x, y, |b|, Total(a), x1, z, z1 - x1 - y1, z2 - x2 - y2);
  }

  /** The digest of a concatenation follows from the digests of the parts. */
  lemma CombineLaw(a: seq<Byte>, b: seq<Byte>)
    ensures Digest(a + b) == Combine(Digest(a), Digest(b), |b|)
  {
    var start := Sums(1, 0);
    StartUnpacked();
    ValuesAppend(a, b);
    CombineFolds(Values(a), Values(b));
    PackInjective(Fold(start, Values(a)), start);
    PackInjective(Fold(start, Values(b)), start);
  }

  // ---- Error detection ----

  /** Every single-byte substitution changes the digest, from every start digest. */
  lemma SubstitutionDetected(digest: uint32, p: seq<Byte>, x: Byte, y: Byte, q: seq<Byte>)
    requires x != y
    ensures Update(digest, p + [x] + q) != Update(digest, p + [y] + q)
  {
    ValueInjective(x, y);
    ValuesAround(p, [x], q);
    ValuesAround(p, [y], q);
    var s := Unpack(digest);
    SubstitutedSums(s, Values(p), Value(x), Value(y), Values(q));
    PackInjective(Fold(s, Values(p + [x] + q)), Fold(s, Values(p + [y] + q)));
  }

  lemma ValuesAround(p: seq<Byte>, m: seq<Byte>, q: seq<Byte>)
    ensures Values(p + m + q) == Values(p) + Values(m) + Values(q)
    ensures |m| == 1 ==> Values(m) == [Value(m[0])]
  {
  }

  lemma SubstitutedSums(s: Sums, p: seq<nat>, x: nat, y: nat, q: seq<nat>)
    requires x != y && x < 256 && y < 256
    ensures Fold(s, p + [x] + q).s1 != Fold(s, p + [y] + q).s1
  {
    var k1, k2 := ClosedForm(s, p + [x] + q);
    var l1, l2 := ClosedForm(s, p + [y] + q);
    TotalAppend(p + [x], q);
    TotalAppend(p + [y], q);
    TotalSnoc(p, x);
    TotalSnoc(p, y);
    NotMultiple(x - y, k1 - l1);
  }

  lemma NotMultiple(x: int, k: int)
    requires x != 0 && -BASE < x < BASE
    ensures x != BASE * k
  {
  }

  lemma TotalSwapped(m: seq<nat>, x: nat, y: nat)
    ensures Total([x] + m + [y]) == x + Total(m) + y
  {
    TotalSnoc([x] + m, y);
    TotalAppend([x], m);
    TotalSnoc([], x);
    assert [] + [x] == [x];
  }

  lemma MomentSwapped(m: seq<nat>, x: nat, y: nat)
    ensures Moment([x] + m + [y]) == (|m| + 1) * x + x + Moment(m) + Total(m) + y
  {
    MomentSnoc([x] + m, y);
    MomentAppend([x], m);
    TotalAppend([x], m);
    TotalSnoc([], x);
    MomentSnoc([], x);
    assert [] + [x] == [x];
    Successor(|m|, x);
  }

  /** 65521 has no divisor below 256, the square root bound of its primality. */
  lemma NoSmallDivisor(k: nat)
    requires 2 <= k < 256
    ensures BASE % k != 0
  {
  }

  lemma RemainderProduct(d: nat, k: nat)
    requires k > 0
    ensures d * (BASE % k) == BASE * d - (BASE / k) * (d * k)
  {
    var q := BASE / k;
    assert BASE % k == BASE - q * k;
    assert d * (BASE - q * k) == d * BASE - d * (q * k);
    assert d * (q * k) == q * (d * k);
  }

  lemma Factor(q: int, t: int)
    ensures q * (BASE * t) == BASE * (q * t)
  {
  }

  /** 65521 is prime, so it divides a product with a small factor only through the other. */
  lemma {:induction false} EuclidSmall(d: nat, k: nat, t: int) returns (u: int)
    requires 0 < k < 256 && d * k == BASE * t
    ensures d == BASE * u
    decreases k
  {
    if k == 1 {
      u := t;
    } else {
      NoSmallDivisor(k);
      RemainderProduct(d, k);
      Factor(BASE / k, t);
      u := EuclidSmall(d, BASE % k, d - (BASE / k) * t);
    }
  }

  lemma Distribute(d: nat, x: nat, y: nat)
    ensures d * (x - y) == d * x - d * y
  {
  }

  lemma DistanceVanishes(d: nat, k: nat, t: int)
    requires 0 < k < 256 && d * k == BASE * t
    ensures d % BASE == 0
  {
    var u := EuclidSmall(d, k, t);
    Divisible(u);
  }

  lemma Divisible(u: int)
    ensures (BASE * u) % BASE == 0
  {
  }

  /** Distance times value difference is a multiple of 65521 only in the two obvious ways. */
  lemma ProductVanishes(d: nat, x: nat, y: nat, t: int)
    requires x < 256 && y < 256 && d * x - d * y == BASE * t
    ensures x == y || d % BASE == 0
  {
    if x > y {
      Distribute(d, x, y);
      DistanceVanishes(d, x - y, t);
    } else if x < y {
      Distribute(d, y, x);
      Negated(t);
      DistanceVanishes(d, y - x, -t);
    }
  }

  lemma Negated(t: int)
    ensures BASE * -t == -(BASE * t)
  {
  }

  /** The low sums agree after a swap; the high sums agree exactly when distance times value
      difference is a multiple of 65521. */
  lemma SwappedSums(s: Sums, x: nat, m: seq<nat>, y: nat, q: seq<nat>) returns (t: int)
    ensures
      var u, v := Fold(s, [x] + m + [y] + q), Fold(s, [y] + m + [x] + q);
      u.s1 == v.s1 && u.s2 - v.s2 == (|m| + 1) * x - (|m| + 1) * y - BASE * t
  {
    var u, v := [x] + m + [y], [y] + m + [x];
    var k1, k2 := ClosedForm(s, u + q);
    var l1, l2 := ClosedForm(s, v + q);
    TotalAppend(u, q);
    TotalAppend(v, q);
    MomentAppend(u, q);
    MomentAppend(v, q);
    TotalSwapped(m, x, y);
    TotalSwapped(m, y, x);
    MomentSwapped(m, x, y);
    MomentSwapped(m, y, x);
    assert Fold(s, u + q).s1 == Fold(s, v + q).s1 by {
      if k1 != l1 {
        NotMultiple(Fold(s, v + q).s1 - Fold(s, u + q).s1, k1 - l1);
      }
    }
    t := k2 - l2;
  }

  lemma SwapUnnoticed(d: nat, x: nat, y: nat, t: int, delta: int)
    requires x < 256 && y < 256 && -BASE < delta < BASE && delta == d * x - d * y - BASE * t
    ensures delta == 0 <==> x == y || d % BASE == 0
  {
    if delta == 0 {
      ProductVanishes(d, x, y, t);
    } else if d % BASE == 0 {
      var k := d / BASE;
      Multiples(k, x, y);
      NotMultiple(delta, k * x - k * y - t);
    } else if x == y {
      NotMultiple(delta, -t);
    }
  }

  lemma Multiples(k: nat, x: nat, y: nat)
    ensures (BASE * k) * x - (BASE * k) * y == BASE * (k * x - k * y)
  {
  }

  lemma SwapFolds(s: Sums, x: nat, m: seq<nat>, y: nat, q: seq<nat>)
    requires x < 256 && y < 256
    ensures Fold(s, [x] + m + [y] + q) == Fold(s, [y] + m + [x] + q) <==> x == y || (|m| + 1) % BASE == 0
  {
    var k := SwappedSums(s, x, m, y, q);
    var f, g := Fold(s, [x] + m + [y] + q), Fold(s, [y] + m + [x] + q);
    assert f.Reduced() && g.Reduced();
    hide Fold;
    SwapUnnoticed(|m| + 1, x, y, k, f.s2 - g.s2);
  }

  /** Swapping two bytes goes unnoticed exactly when they are equal or their distance is a
      multiple of 65521, in streams of any length and from every start digest. */
  lemma SwapDetected(digest: uint32, p: seq<Byte>, x: Byte, m: seq<Byte>, y: Byte, q: seq<Byte>)
    ensures Update(digest, p + ([x] + m + [y]) + q) == Update(digest, p + ([y] + m + [x]) + q)
       <==> x == y || (|m| + 1) % 65521 == 0
  {
    hide Update, Fold, Values, Pack, Unpack;
    UpdateSwapped(digest, p, x, m, y, q);
    UpdateSwapped(digest, p, y, m, x, q);
    var s := Fold(Unpack(digest), Values(p));
    SwapFolds(s, Value(x), Values(m), Value(y), Values(q));
    PackInjective(Fold(s, [Value(x)] + Values(m) + [Value(y)] + Values(q)),
                  Fold(s, [Value(y)] + Values(m) + [Value(x)] + Values(q)));
    if x != y {
      ValueInjective(x, y);
    }
  }

  lemma UpdateSwapped(digest: uint32, p: seq<Byte>, x: Byte, m: seq<Byte>, y: Byte, q: seq<Byte>)
    ensures Update(digest, p + ([x] + m + [y]) + q)
         == Pack(Fold(Fold(Unpack(digest), Values(p)), [Value(x)] + Values(m) + [Value(y)] + Values(q)))
  {
    hide Fold, Values, Pack, Unpack;
    SwappedValues(p, x, m, y, q);
    FoldAppend(Unpack(digest), Values(p), [Value(x)] + Values(m) + [Value(y)] + Values(q));
  }

  lemma SwappedValues(p: seq<Byte>, x: Byte, m: seq<Byte>, y: Byte, q: seq<Byte>)
    ensures Values(p + ([x] + m + [y]) + q)
         == Values(p) + ([Value(x)] + Values(m) + [Value(y)] + Values(q))
  {
  }

  /** The digest of "abc". */
  lemma KnownDigest()
    ensures Digest([0x61, 0x62, 0x63]) == 0x024D0127
  {
    hide Digest;
    DigestClosedForm([0x61, 0x62, 0x63]);
    KnownValues();
    KnownSums();
  }

  lemma KnownValues()
    ensures Values([0x61, 0x62, 0x63]) == [97, 98, 99]
  {
    assert Value(0x61) == 97 && Value(0x62) == 98 && Value(0x63) == 99;
  }

  lemma KnownSums()
    ensures Total([97, 98, 99]) == 294 && Moment([97, 98, 99]) == 586
  {
    assert [97] + [98] == [97, 98] && [97, 98] + [99] == [97, 98, 99] && [] + [97] == [97];
    TotalSnoc([], 97);
    TotalSnoc([97], 98);
    TotalSnoc([97, 98], 99);
    MomentSnoc([], 97);
    MomentSnoc([97], 98);
    MomentSnoc([97, 98], 99);
  }

  // ---- The mutable checksum ----

  class ChecksumAdler32 {
    var value: uint32

    constructor (digest: uint32)
      ensures value == digest
    {
      value := digest;
    }

    method Reset()
      modifies this
      ensures value == INITIAL
    {
      value := 1;
    }

    /** Each sum is reduced after every byte, so no 32-bit operation below overflows. */
    method UpdateBytes(data: seq<Byte>)
      modifies this
      ensures value == Update(old(value), data)
    {
      var s1: uint32 := value % 0x10000;
      var s2: uint32 := (value / 0x10000) % 0x10000;
      ghost var start := Unpack(value);
      ghost var values := Values(data);
      for i := 0 to |data|
        invariant value == old(value)
        invariant Sums(s1 as int, s2 as int) == Fold(start, values[..i])
      {
        FoldSnoc(start, values, i);
        var byte := Value(data[i]);
        s1 := (s1 + byte as uint32) % 65521;
        s2 := (s2 + s1) % 65521;
      }
      assert values[..|data|] == values;
      value := s2 * 0x10000 + s1;
    }

    /** Feeding a segmented buffer is the same as feeding its leading `size` bytes flat. */
    method UpdateBlob(data: Blob, size: nat)
      requires data.Valid()
      modifies this
      ensures value == Update(old(value), data.Prefix(size))
    {
      hide Update, Blob.Prefix, Blob.Contents;
      data.PrefixNone();
      ghost var start := value;
      UpdateNothing(start);
      if size == 0 {
        return;
      }
      var numBytesRemaining := size;
      for i := 0 to data.numDataBuffers
        invariant |data.DataUpTo(i)| < size && numBytesRemaining == size - |data.DataUpTo(i)|
        invariant value == Update(start, data.DataUpTo(i))
      {
        var bufferSize := data.DataSize(i);
        var numBytesToUpdate, done := bufferSize, false;
        if bufferSize < numBytesRemaining {
          numBytesRemaining := numBytesRemaining - bufferSize;
        } else {
          numBytesToUpdate, numBytesRemaining, done := numBytesRemaining, 0, true;
        }
        var chunk := data.buffers[i][..numBytesToUpdate];
        UpdateAppend(start, data.DataUpTo(i), chunk);
        UpdateBytes(chunk);
        if done {
          data.PrefixEndsInBuffer(i, size);
          return;
        }
      }
      data.PrefixIsAll(size);
    }
  }
}
