/** Bytes, chunked byte streams and the segmented buffer (`bdlbb::Blob`) that carries them. */
module Bytes {

  /** A byte in memory: the checksums work on its bits. */
  type Byte = bv8

  /** The numeric value of a byte: the message framing works on values. */
  type Octet = b: int | 0 <= b < 256

  function Value(b: Byte): (n: Octet)
    ensures n < 256
  {
    b as int
  }

  lemma ValueInjective(x: Byte, y: Byte)
    requires x != y
    ensures Value(x) != Value(y)
  {
    assert (x as int) as bv8 == x;
    assert (y as int) as bv8 == y;
  }

  /** The numeric values of a byte stream. */
  function Values(data: seq<Byte>): (v: seq<nat>)
    ensures |v| == |data|
    ensures forall i :: 0 <= i < |v| ==> v[i] == Value(data[i])
  {
    seq(|data|, i requires 0 <= i < |data| => Value(data[i]))
  }

  lemma ValuesAppend(a: seq<Byte>, b: seq<Byte>)
    ensures Values(a + b) == Values(a) + Values(b)
  {
  }

  /** The byte stream obtained by writing the chunks one after the other. */
  function Concat<T>(chunks: seq<seq<T>>): (stream: seq<T>)
  {
    if chunks == [] then [] else Concat(chunks[..|chunks| - 1]) + chunks[|chunks| - 1]
  }

  function Min(a: nat, b: nat): (r: nat) {
    if a < b then a else b
  }

  // ---- Numbers in memory ----

  /** A 32-bit number as four octets, least significant first. */
  function Octets(n: nat): (r: seq<Octet>)
    requires n < 0x1_0000_0000
    ensures |r| == 4
  {
    [n % 256, n / 256 % 256, n / 256 / 256 % 256, n / 256 / 256 / 256]
  }

  /** `low` below the digits of `high`. */
  function Raise(low: nat, high: nat): (n: nat) {
    low + 256 * high
  }

  function Joined(r: seq<Octet>): (n: nat)
    requires |r| == 4
    ensures n < 0x1_0000_0000
  {
    Raise(r[0], Raise(r[1], Raise(r[2], r[3])))
  }

  lemma JoinedOctets(n: nat)
    requires n < 0x1_0000_0000
    ensures Joined(Octets(n)) == n
  {
  }

  lemma LowDigit(o: Octet, n: nat)
    ensures Raise(o, n) % 256 == o && Raise(o, n) / 256 == n
  {
  }

  lemma OctetsJoined(r: seq<Octet>)
    requires |r| == 4
    ensures Octets(Joined(r)) == r
  {
    LowDigit(r[2], r[3]);
    LowDigit(r[1], Raise(r[2], r[3]));
    LowDigit(r[0], Raise(r[1], Raise(r[2], r[3])));
  }

  /** A 32-bit number as little-endian bytes. */
  function NumberBytes(n: nat): (data: seq<Byte>)
    requires n < 0x1_0000_0000
    ensures |data| == 4
  {
    var r := Octets(n);
    [ByteOf(r[0]), ByteOf(r[1]), ByteOf(r[2]), ByteOf(r[3])]
  }

  function Number(data: seq<Byte>): (n: nat)
    requires |data| == 4
    ensures n < 0x1_0000_0000
  {
    Joined([Value(data[0]), Value(data[1]), Value(data[2]), Value(data[3])])
  }

  /** The byte with the given value, counted up from zero. */
  function ByteOf(n: nat): (b: Byte)
    requires n < 256
  {
    if n == 0 then 0 else ByteOf(n - 1) + 1
  }

  lemma ByteNext(b: Byte)
    requires b != 255
    ensures Value(b + 1) == Value(b) + 1
  {
  }

  lemma {:induction false} ByteOfValue(n: nat)
    requires n < 256
    ensures Value(ByteOf(n)) == n
  {
    if n != 0 {
      ByteOfValue(n - 1);
      ByteNext(ByteOf(n - 1));
    }
  }

  /** The number in four bytes, the first the least significant. */
  lemma NumberIsLittleEndian(data: seq<Byte>)
    requires |data| == 4
    ensures Number(data)
         == Value(data[0]) as int + 0x100 * (Value(data[1]) as int)
            + 0x1_0000 * (Value(data[2]) as int) + 0x100_0000 * (Value(data[3]) as int)
  {
    hide Value;
  }

  lemma NumberRoundTrip(n: nat)
    requires n < 0x1_0000_0000
    ensures Number(NumberBytes(n)) == n
  {
    hide Value, ByteOf, Joined, Octets;
    var r := Octets(n);
    ByteOfValue(r[0]);
    ByteOfValue(r[1]);
    ByteOfValue(r[2]);
    ByteOfValue(r[3]);
    assert r == [r[0], r[1], r[2], r[3]];
    JoinedOctets(n);
  }

  // ---- Segmented buffers ----

  /** A segmented buffer: the first `numDataBuffers` buffers hold data, all but the last of
      them are full, and the last one holds `lastDataBufferLength` bytes of data. */
  datatype Blob = Blob(buffers: seq<seq<Byte>>, numDataBuffers: nat, lastDataBufferLength: nat) {

    predicate Valid() {
      && numDataBuffers <= |buffers|
      && (numDataBuffers > 0 ==> lastDataBufferLength <= |buffers[numDataBuffers - 1]|)
    }

    /** How many bytes of data buffer `i` holds. */
    function DataSize(i: nat): (n: nat)
      requires Valid() && i < numDataBuffers
      ensures n <= |buffers[i]|
    {
      if i != numDataBuffers - 1 then |buffers[i]| else lastDataBufferLength
    }

    /** The data in the first `i` data buffers. */
    function DataUpTo(i: nat): (r: seq<Byte>)
      requires Valid() && i <= numDataBuffers
    {
      if i == 0 then [] else DataUpTo(i - 1) + buffers[i - 1][..DataSize(i - 1)]
    }

    /** The whole content of the blob: every data buffer but the last in full, and the leading part of
        the last one. */
    function Contents(): (data: seq<Byte>)
      requires Valid()
    {
      if numDataBuffers == 0 then []
      else Concat(buffers[..numDataBuffers - 1]) + buffers[numDataBuffers - 1][..lastDataBufferLength]
    }

    /** The bytes an update limited to `size` bytes must see. */
    function Prefix(size: nat): (r: seq<Byte>)
      requires Valid()
    {
      Contents()[..Min(size, |Contents()|)]
    }

    lemma {:induction false} DataUpToFull(i: nat)
      requires Valid() && i < numDataBuffers
      ensures DataUpTo(i) == Concat(buffers[..i])
    {
      if i > 0 {
        DataUpToFull(i - 1);
        assert buffers[..i][..i - 1] == buffers[..i - 1] && buffers[..i][i - 1] == buffers[i - 1];
        assert buffers[i - 1][..DataSize(i - 1)] == buffers[i - 1];
      }
    }

    /** The data buffers taken one by one hold the whole content. */
    lemma DataUpToAll()
      requires Valid()
      ensures DataUpTo(numDataBuffers) == Contents()
    {
      if numDataBuffers > 0 {
        DataUpToFull(numDataBuffers - 1);
      }
    }

    /** The number of bytes in the first `i` buffers. */
    function Offset(i: nat): (n: nat)
      requires i <= |buffers|
    {
      if i == 0 then 0 else Offset(i - 1) + |buffers[i - 1]|
    }

    lemma {:induction false} ConcatAt(i: nat, k: nat, j: nat)
      requires k < i <= |buffers| && j < |buffers[k]|
      ensures |Concat(buffers[..i])| == Offset(i) && Offset(k) + j < Offset(i)
      ensures Concat(buffers[..i])[Offset(k) + j] == buffers[k][j]
    {
      assert buffers[..i][..i - 1] == buffers[..i - 1] && buffers[..i][i - 1] == buffers[i - 1];
      ConcatLength(i - 1);
      if k < i - 1 {
        ConcatAt(i - 1, k, j);
      }
    }

    lemma {:induction false} ConcatLength(i: nat)
      requires i <= |buffers|
      ensures |Concat(buffers[..i])| == Offset(i)
    {
      if i > 0 {
        ConcatLength(i - 1);
        assert buffers[..i][..i - 1] == buffers[..i - 1] && buffers[..i][i - 1] == buffers[i - 1];
      }
    }

    /** The content of a blob is as long as its full data buffers together with the used part of the
        last one. */
    lemma ContentsLength()
      requires Valid()
      ensures |Contents()|
           == if numDataBuffers == 0 then 0 else Offset(numDataBuffers - 1) + lastDataBufferLength
    {
      if numDataBuffers > 0 {
        ConcatLength(numDataBuffers - 1);
      }
    }

    /** Byte `j` of data buffer `i` is in the content, after all the bytes of the buffers before. */
    lemma ContentsAt(i: nat, j: nat)
      requires Valid() && i < numDataBuffers
      requires j < if i == numDataBuffers - 1 then lastDataBufferLength else |buffers[i]|
      ensures Offset(i) + j < |Contents()| && Contents()[Offset(i) + j] == buffers[i][j]
    {
      var n := numDataBuffers - 1;
      hide Concat, Offset;
      ConcatLength(n);
      if i < n {
        ConcatAt(n, i, j);
        AppendedAt(Concat(buffers[..n]), buffers[n][..lastDataBufferLength], Offset(i) + j);
      } else {
        AppendedAt(Concat(buffers[..n]), buffers[n][..lastDataBufferLength], Offset(n) + j);
      }
    }

    static lemma AppendedAt(a: seq<Byte>, b: seq<Byte>, k: nat)
      requires k < |a| + |b|
      ensures (a + b)[k] == if k < |a| then a[k] else b[k - |a|]
    {
    }

    lemma {:induction false} DataUpToIsPrefix(i: nat)
      requires Valid() && i <= numDataBuffers
      ensures DataUpTo(i) <= Contents()
      decreases numDataBuffers - i
    {
      if i < numDataBuffers {
        DataUpToIsPrefix(i + 1);
        assert DataUpTo(i) <= DataUpTo(i + 1);
      } else {
        DataUpToAll();
      }
    }

    /** Stopping inside buffer `i` yields exactly the limited content. */
    lemma {:induction false} PrefixEndsInBuffer(i: nat, size: nat)
      requires Valid() && i < numDataBuffers
      requires |DataUpTo(i)| <= size <= |DataUpTo(i)| + DataSize(i)
      ensures DataUpTo(i) + buffers[i][..size - |DataUpTo(i)|] == Prefix(size)
    {
      DataUpToIsPrefix(i + 1);
      TakeThrough(DataUpTo(i), buffers[i], DataSize(i), Contents(), size);
    }

    static lemma TakeThrough(a: seq<Byte>, b: seq<Byte>, n: nat, whole: seq<Byte>, size: nat)
      requires n <= |b| && a + b[..n] <= whole && |a| <= size <= |a| + n
      ensures whole[..size] == a + b[..size - |a|]
    {
    }

    lemma PrefixNone()
      requires Valid()
      ensures Prefix(0) == []
    {
    }

    /** Running out of buffers yields the whole content. */
    lemma PrefixIsAll(size: nat)
      requires Valid() && |DataUpTo(numDataBuffers)| <= size
      ensures DataUpTo(numDataBuffers) == Prefix(size)
    {
      DataUpToAll();
    }
  }
}
