/** The tagged union over the three checksums: reset, store, update, load and comparison, and
    suspending a checksum by saving its digest and resuming it elsewhere. */
module Checksum {
  import opened Bytes
  import opened Errors
  import Adler32
  import Crc32
  import XxHash32
  import ShiftRegister
  import Words

  datatype ChecksumType = UNDEFINED | ADLER32 | CRC32 | XXH32

  // ---- What a union holds ----

  /** The logical value of a union: a digest, or the seed and bytes of a block checksum. */
  datatype Content =
    | Nothing
    | Adler(digest: Adler32.uint32)
    | Crc(bits: ShiftRegister.Register)
    | XxHash(seed: bv32, stream: seq<Byte>)

  function Initial(kind: ChecksumType): (r: Content) {
    match kind
    case UNDEFINED => Nothing
    case ADLER32 => Adler(Adler32.INITIAL)
    case CRC32 => Crc(Words.Bits(0))
    case XXH32 => XxHash(0, [])
  }

  function Advance(c: Content, data: seq<Byte>): (r: Content) {
    match c
    case Nothing => Nothing
    case Adler(digest) => Adler(Adler32.Update(digest, data))
    case Crc(bits) => Crc(Crc32.Update(bits, data))
    case XxHash(seed, stream) => XxHash(seed, stream + data)
  }

  function AdvanceAll(c: Content, chunks: seq<seq<Byte>>): (r: Content) {
    if chunks == [] then c
    else Advance(AdvanceAll(c, chunks[..|chunks| - 1]), chunks[|chunks| - 1])
  }

  lemma AdvanceAppend(c: Content, a: seq<Byte>, b: seq<Byte>)
    ensures Advance(Advance(c, a), b) == Advance(c, a + b)
  {
    hide Adler32.Update, Crc32.Update;
    match c
    case Nothing =>
    case Adler(digest) => Adler32.UpdateAppend(digest, a, b);
    case Crc(bits) => Crc32.UpdateAppend(bits, a, b);
    case XxHash(seed, stream) =>
  }

  lemma AdvanceNothing(c: Content)
    ensures Advance(c, []) == c
  {
    match c
    case Nothing =>
    case Adler(digest) => Adler32.UpdateNothing(digest);
    case Crc(bits) => Crc32.UpdateNothing(bits);
    case XxHash(seed, stream) =>
  }

  /** Whatever the type, the value depends only on the bytes, never on how they were cut. */
  lemma {:induction false} ChunkIndependent(c: Content, chunks: seq<seq<Byte>>)
    ensures AdvanceAll(c, chunks) == Advance(c, Concat(chunks))
  {
    hide Advance;
    if chunks == [] {
      AdvanceNothing(c);
    } else {
      var init := chunks[..|chunks| - 1];
      ChunkIndependent(c, init);
      AdvanceAppend(c, Concat(init), chunks[|chunks| - 1]);
    }
  }

  // ---- Digests in memory ----

  /** `saved` is what loading a union with content `c` writes. */
  predicate LoadsAs(c: Content, saved: seq<Byte>) {
    match c
    case Nothing => saved == []
    case Adler(digest) => saved == NumberBytes(digest as nat)
    case Crc(bits) => |saved| == 4 && Words.StreamBits(saved) == bits
    case XxHash(seed, stream) => saved == Words.Encode(XxHash32.Hash(seed, stream))
  }

  function TypeOf(c: Content): (r: ChecksumType) {
    match c
    case Nothing => UNDEFINED
    case Adler(_) => ADLER32
    case Crc(_) => CRC32
    case XxHash(_, _) => XXH32
  }

  /** The content after storing a digest; the block checksum takes it as a seed. */
  function Restored(kind: ChecksumType, value: seq<Byte>): (r: Content) {
    if |value| != 4 then Nothing else
    match kind
    case UNDEFINED => Nothing
    case ADLER32 => Adler(Number(value) as Adler32.uint32)
    case CRC32 => Crc(Words.StreamBits(value))
    case XXH32 => XxHash(Words.Decode(value, 0), [])
  }

  /** The digest bytes a fresh checksum starts from. */
  function FreshBytes(kind: ChecksumType): (data: seq<Byte>) {
    if kind == ADLER32 then [1, 0, 0, 0] else [0, 0, 0, 0]
  }

  lemma ZeroWord()
    ensures Words.Decode([0, 0, 0, 0], 0) == 0
  {
  }

  lemma OneNumber()
    ensures Number([1, 0, 0, 0]) == 1 && NumberBytes(1) == [1, 0, 0, 0]
  {
    assert Value(1) == 1 && Value(0) == 0;
    assert ByteOf(0) == 0;
    assert ByteOf(1) == 1;
  }

  /** A fresh checksum is one that has been given the digest 1, for Adler-32, or 0, for CRC-32 and as
      the seed of a block checksum. */
  lemma FreshIsStored()
    ensures Initial(ADLER32) == Restored(ADLER32, [1, 0, 0, 0])
    ensures Initial(CRC32) == Restored(CRC32, [0, 0, 0, 0])
    ensures Initial(XXH32) == Restored(XXH32, [0, 0, 0, 0])
    ensures Initial(UNDEFINED) == Nothing
  {
    hide Number, Words.Decode, Words.StreamBits, Words.Bits;
    OneNumber();
    ZeroWord();
    Words.DecodeBits([0, 0, 0, 0]);
  }

  /** What fresh checksums load: the digests of nothing, and for a block checksum that has been fed a
      stream the digest of the stream with seed 0. */
  lemma FreshLoads(stream: seq<Byte>)
    ensures LoadsAs(Initial(ADLER32), [1, 0, 0, 0]) && LoadsAs(Initial(CRC32), [0, 0, 0, 0])
    ensures LoadsAs(Advance(Initial(XXH32), stream), Words.Encode(XxHash32.Hash(0, stream)))
  {
    hide Number, NumberBytes, Words.Decode, Words.StreamBits, Words.Bits, XxHash32.Hash, Words.Encode;
    FreshIsStored();
    OneNumber();
    assert [] + stream == stream;
  }

  /** Saving an Adler-32 or CRC-32 digest, storing it into another union and feeding any
      further chunks there gives what never stopping would have given. */
  lemma SuspendResume(c: Content, saved: seq<Byte>, chunks: seq<seq<Byte>>)
    requires c.Adler? || c.Crc?
    requires LoadsAs(c, saved)
    ensures Restored(TypeOf(c), saved) == c
    ensures AdvanceAll(Restored(TypeOf(c), saved), chunks) == AdvanceAll(c, chunks)
  {
    hide Number, NumberBytes;
    if c.Adler? {
      NumberRoundTrip(c.digest as nat);
    }
  }

  /** Storing is different for the block checksum: it never restores a checksum that has been
      fed anything. */
  lemma XxHashNotResumed(seed: bv32, stream: seq<Byte>, saved: seq<Byte>)
    requires LoadsAs(XxHash(seed, stream), saved)
    ensures Restored(XXH32, saved) == XxHash(XxHash32.Hash(seed, stream), [])
  {
    hide XxHash32.Hash;
    Words.DecodeEncode(XxHash32.Hash(seed, stream));
  }

  // ---- The mutable union ----

  class Checksum {
    var kind: ChecksumType
    var adler32: Adler32.ChecksumAdler32?
    var crc32: Crc32.ChecksumCrc32?
    var xxHash32: XxHash32.ChecksumXxHash32?

    /** The objects this union may change. */
    ghost function Repr(): (r: set<object>)
      reads this
    {
      {this}
      + (if adler32 != null then {adler32} else {})
      + (if crc32 != null then {crc32} else {})
      + (if xxHash32 != null then {xxHash32, xxHash32.accumulator, xxHash32.buffer} else {})
    }

    ghost predicate Valid()
      reads Repr()
    {
      && (kind == ADLER32 ==> adler32 != null)
      && (kind == CRC32 ==> crc32 != null)
      && (kind == XXH32 ==> xxHash32 != null && xxHash32.Valid())
    }

    ghost function Contains(): (r: Content)
      requires Valid()
      reads Repr()
    {
      match kind
      case UNDEFINED => Nothing
      case ADLER32 => Adler(adler32.value)
      case CRC32 => Crc(Words.Bits(crc32.value))
      case XXH32 => XxHash(xxHash32.seed, xxHash32.stream)
    }

    constructor (kind: ChecksumType)
      ensures Valid() && Contains() == Initial(kind) && fresh(Repr())
      ensures Contains() == if kind == UNDEFINED then Nothing else Restored(kind, FreshBytes(kind))
    {
      this.kind := kind;
      adler32, crc32, xxHash32 := null, null, null;
      new;
      ResetTo(kind);
    }

    method Reset()
      modifies this`kind
      ensures Valid() && Contains() == Nothing
    {
      kind := UNDEFINED;
    }

    method ResetTo(kind: ChecksumType)
      modifies this
      ensures Valid() && Contains() == Initial(kind) && fresh(Repr() - old(Repr()))
      ensures Contains() == if kind == UNDEFINED then Nothing else Restored(kind, FreshBytes(kind))
    {
      hide Restored;
      FreshIsStored();
      this.kind := kind;
      match kind
      case ADLER32 => adler32 := new Adler32.ChecksumAdler32(1);
      case CRC32 => crc32 := new Crc32.ChecksumCrc32(0);
      case XXH32 => xxHash32 := new XxHash32.ChecksumXxHash32(0);
      case UNDEFINED =>
    }

    /** A failed store leaves the union undefined. */
    method Store(kind: ChecksumType, value: seq<Byte>) returns (error: Error)
      modifies this
      ensures Valid() && Contains() == Restored(kind, value) && fresh(Repr() - old(Repr()))
      ensures error == (if kind == UNDEFINED || |value| != 4 then INVALID else OK)
    {
      hide Number, Words.Decode, Words.StreamBits, Words.Bits, XxHash32.ChecksumXxHash32.Valid;
      Reset();
      if kind == UNDEFINED || |value| != 4 {
        return INVALID;
      }
      match kind {
        case ADLER32 =>
          adler32 := new Adler32.ChecksumAdler32(Number(value) as Adler32.uint32);
        case CRC32 =>
          crc32 := new Crc32.ChecksumCrc32(Words.Decode(value, 0));
          Words.DecodeBits(value);
        case XXH32 =>
          xxHash32 := new XxHash32.ChecksumXxHash32(Words.Decode(value, 0));
      }
      this.kind := kind;
      return OK;
    }

    method UpdateBytes(data: seq<Byte>) returns (error: Error)
      requires Valid()
      modifies Repr()
      ensures Valid() && Repr() == old(Repr()) && kind == old(kind)
      ensures Contains() == Advance(old(Contains()), data)
      ensures error == (if kind == UNDEFINED then INVALID else OK)
    {
      hide Adler32.Update, Crc32.Update, Words.Bits, XxHash32.ChecksumXxHash32.Valid;
      match kind {
        case ADLER32 => adler32.UpdateBytes(data);
        case CRC32 => crc32.UpdateBytes(data);
        case XXH32 => xxHash32.UpdateBytes(data);
        case UNDEFINED => return INVALID;
      }
      return OK;
    }

    /** The union's own segmented loop agrees with the flat update. Unlike the flat update it
        reports success on an undefined union too. */
    method UpdateBlob(data: Blob, size: nat) returns (error: Error)
      requires Valid() && data.Valid()
      modifies Repr()
      ensures Valid() && Repr() == old(Repr()) && kind == old(kind)
      ensures Contains() == Advance(old(Contains()), data.Prefix(size))
      ensures error == OK
    {
      hide Advance, Words.Bits, XxHash32.ChecksumXxHash32.Valid, Blob.Prefix, Blob.Contents;
      data.PrefixNone();
      ghost var start := Contains();
      AdvanceNothing(start);
      if size == 0 {
        return OK;
      }
      var numBytesRemaining := size;
      for i := 0 to data.numDataBuffers
        invariant Valid() && Repr() == old(Repr()) && kind == old(kind)
        invariant |data.DataUpTo(i)| < size && numBytesRemaining == size - |data.DataUpTo(i)|
        invariant Contains() == Advance(start, data.DataUpTo(i))
      {
        var bufferSize := data.DataSize(i);
        var numBytesToUpdate, done := bufferSize, false;
        if bufferSize < numBytesRemaining {
          numBytesRemaining := numBytesRemaining - bufferSize;
        } else {
          numBytesToUpdate, numBytesRemaining, done := numBytesRemaining, 0, true;
        }
        var chunk := data.buffers[i][..numBytesToUpdate];
        AdvanceAppend(start, data.DataUpTo(i), chunk);
        var _ := UpdateBytes(chunk);
        if done {
          data.PrefixEndsInBuffer(i, size);
          return OK;
        }
      }
      data.PrefixIsAll(size);
      return OK;
    }

    /** Writes nothing when the capacity is short of four bytes or the union is undefined. */
    method Load(capacity: nat) returns (result: seq<Byte>)
      requires Valid()
      ensures if capacity < 4 then result == [] else LoadsAs(Contains(), result)
    {
      if capacity < 4 {
        return [];
      }
      match kind {
        case ADLER32 =>
          result := NumberBytes(adler32.value as nat);
        case CRC32 =>
          result := Words.Encode(crc32.value);
          Words.EncodeBits(crc32.value);
        case XXH32 =>
          var digest := xxHash32.Value();
          result := Words.Encode(digest);
        case UNDEFINED =>
          result := [];
      }
    }

    method Equals(other: Checksum) returns (equal: bool)
      requires Valid() && other.Valid()
      ensures equal <==> SameValue(Contains(), other.Contains())
    {
      if kind != other.kind {
        return false;
      }
      match kind {
        case ADLER32 =>
          equal := adler32.value == other.adler32.value;
        case CRC32 =>
          equal := crc32.value == other.crc32.value;
          if Words.Bits(crc32.value) == Words.Bits(other.crc32.value) {
            Words.BitsInjective(crc32.value, other.crc32.value);
          }
        case XXH32 =>
          equal := xxHash32.Equals(other.xxHash32);
          xxHash32.ValidView();
          other.xxHash32.ValidView();
        case UNDEFINED =>
          equal := true;
      }
    }
  }

  /** Unions are equal when their contents are, a block checksum being known by its state. */
  ghost predicate SameValue(c: Content, d: Content) {
    match (c, d)
    case (XxHash(s, x), XxHash(t, y)) => XxHash32.StateOf(s, x) == XxHash32.StateOf(t, y)
    case _ => c == d
  }

  /** Equality is reflexive, and equal unions have the same type and load the same bytes. */
  lemma EqualLoadsAlike(c: Content, d: Content, saved: seq<Byte>)
    ensures SameValue(c, c)
    ensures SameValue(c, d) ==> TypeOf(c) == TypeOf(d) && (LoadsAs(c, saved) <==> LoadsAs(d, saved))
  {
    hide XxHash32.StateOf, XxHash32.Digest, Words.Encode, Words.StreamBits, NumberBytes;
  }
}
