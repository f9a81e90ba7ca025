/** The framed messages of the example protocol: an 8-byte big-endian header (transaction id,
    payload length) followed by the payload, and what a resumable parser must deliver from a
    stream of such frames. */
module Wire {
  import opened Bytes

  type Int32 = i: int | -0x8000_0000 <= i < 0x8000_0000

  const HEADER_LENGTH: nat := 8

  /** Conversion of a size to a 32-bit `int`: the low 32 bits, read as two's complement. */
  function ToInt32(n: int): (r: Int32) {
    var u := n % 0x1_0000_0000;
    if u < 0x8000_0000 then u else u - 0x1_0000_0000
  }

  // ---- 32-bit integers ----

  function EncodeInt32(i: Int32): (data: seq<Octet>)
    ensures |data| == 4
  {
    var r := Octets(i % 0x1_0000_0000);
    [r[3], r[2], r[1], r[0]]
  }

  function DecodeInt32(data: seq<Octet>): (i: Int32)
    requires |data| == 4
  {
    ToInt32(Joined([data[3], data[2], data[1], data[0]]))
  }

  /** Reducing a 32-bit integer to 32 bits and converting back changes nothing, either way round. */
  lemma Reduced(i: Int32)
    ensures i % 0x1_0000_0000 == if i >= 0 then i else i + 0x1_0000_0000
    ensures ToInt32(i % 0x1_0000_0000) == i
  {
  }

  lemma Converted(u: nat)
    requires u < 0x1_0000_0000
    ensures ToInt32(u) % 0x1_0000_0000 == u
  {
    Reduced(ToInt32(u));
  }

  lemma Int32RoundTrip(i: Int32)
    ensures DecodeInt32(EncodeInt32(i)) == i
  {
    hide ToInt32, Octets, Joined;
    Reduced(i);
    JoinedOctets(i % 0x1_0000_0000);
    var r := Octets(i % 0x1_0000_0000);
    assert r == [r[0], r[1], r[2], r[3]];
  }

  lemma Int32Bytes(data: seq<Octet>)
    requires |data| == 4
    ensures EncodeInt32(DecodeInt32(data)) == data
  {
    hide ToInt32, Octets, Joined;
    var r := [data[3], data[2], data[1], data[0]];
    Converted(Joined(r));
    OctetsJoined(r);
  }

  /** Integers are read most significant byte first, in two's complement. */
  lemma DecodedBigEndian(data: seq<Octet>)
    requires |data| == 4
    ensures
      var n := 0x100_0000 * (data[0] as int) + 0x1_0000 * (data[1] as int) + 0x100 * (data[2] as int)
               + data[3] as int;
      DecodeInt32(data) == if n < 0x8000_0000 then n else n - 0x1_0000_0000
  {
  }

  /** Integers are written most significant byte first, in two's complement. */
  lemma EncodedBigEndian(i: Int32)
    ensures
      var data := EncodeInt32(i);
      0x100_0000 * (data[0] as int) + 0x1_0000 * (data[1] as int) + 0x100 * (data[2] as int) + data[3] as int
      == if i >= 0 then i else i + 0x1_0000_0000
  {
    Int32RoundTrip(i);
    DecodedBigEndian(EncodeInt32(i));
  }

  /** A size that does not fit is cut to its low 32 bits. */
  lemma CutToInt32(n: int)
    ensures (n - ToInt32(n) as int) % 0x1_0000_0000 == 0
  {
  }

  // ---- Messages ----

  datatype Message = Message(id: Int32, length: Int32, payload: seq<Octet>) {

    /** The payload has the announced length; a frame announcing none carries none. */
    predicate WellFormed() {
      |payload| == if length > 0 then length else 0
    }
  }

  function EncodeHeader(id: Int32, length: Int32): (data: seq<Octet>)
    ensures |data| == HEADER_LENGTH
  {
    EncodeInt32(id) + EncodeInt32(length)
  }

  /** The first four bytes of a header are the transaction id, the next four the length. */
  lemma HeaderLayout(id: Int32, length: Int32)
    ensures
      var h := EncodeHeader(id, length);
      && 0x100_0000 * (h[0] as int) + 0x1_0000 * (h[1] as int) + 0x100 * (h[2] as int) + h[3] as int
         == (if id >= 0 then id else id + 0x1_0000_0000)
      && 0x100_0000 * (h[4] as int) + 0x1_0000 * (h[5] as int) + 0x100 * (h[6] as int) + h[7] as int
         == (if length >= 0 then length else length + 0x1_0000_0000)
  {
    hide EncodeInt32;
    EncodedBigEndian(id);
    EncodedBigEndian(length);
  }

  function Encode(m: Message): (data: seq<Octet>)
    ensures |data| == HEADER_LENGTH + |m.payload|
  {
    EncodeHeader(m.id, m.length) + m.payload
  }

  function EncodeAll(messages: seq<Message>): (r: seq<Octet>) {
    if messages == [] then [] else Encode(messages[0]) + EncodeAll(messages[1..])
  }

  lemma {:induction false} EncodeAllAppend(a: seq<Message>, b: seq<Message>)
    ensures EncodeAll(a + b) == EncodeAll(a) + EncodeAll(b)
  {
    if a == [] {
      assert a + b == b;
    } else {
      assert (a + b)[1..] == a[1..] + b;
      EncodeAllAppend(a[1..], b);
    }
  }

  // ---- One step of the parser ----

  datatype ParserState = WantHeader | WantPayload(id: Int32, length: Int32) {

    predicate Valid() {
      WantPayload? ==> length > 0
    }

    /** How many bytes the parser needs before it can move on. */
    function Needed(): (r: nat)
      requires Valid()
    {
      if WantHeader? then HEADER_LENGTH else length
    }

    /** The header bytes already taken from the queue for an unfinished message. */
    function Held(): (r: seq<Octet>) {
      if WantHeader? then [] else EncodeHeader(id, length)
    }
  }

  /** A parser, the bytes in its read queue, and the messages delivered so far. */
  datatype Parse = Parse(state: ParserState, queue: seq<Octet>, delivered: seq<Message>) {

    predicate Enabled()
      requires state.Valid()
    {
      |queue| >= state.Needed()
    }

    /** Takes a header or a payload from the queue. */
    function Step(): (next: Parse)
      requires state.Valid() && Enabled()
      ensures next.state.Valid() && |next.queue| < |queue|
      ensures delivered <= next.delivered
    {
      match state
      case WantHeader =>
        var id, length := DecodeInt32(queue[..4]), DecodeInt32(queue[4..8]);
        if length > 0 then Parse(WantPayload(id, length), queue[8..], delivered)
        else Parse(WantHeader, queue[8..], delivered + [Message(id, length, [])])
      case WantPayload(id, length) =>
        Parse(WantHeader, queue[length..], delivered + [Message(id, length, queue[..length])])
    }

    /** Steps as long as the queue holds enough bytes. */
    function Run(): (done: Parse)
      requires state.Valid()
      ensures done.state.Valid() && |done.queue| < done.state.Needed()
      decreases |queue|
    {
      if Enabled() then Step().Run() else this
    }

    function Arrive(bytes: seq<Octet>): (r: Parse)
      ensures r.state == state
    {
      this.(queue := queue + bytes)
    }

    /** Every byte the parser has been given, in order. */
    function Bytes(): (r: seq<Octet>) {
      EncodeAll(delivered) + state.Held() + queue
    }

    predicate AllWellFormed() {
      forall i :: 0 <= i < |delivered| ==> delivered[i].WellFormed()
    }
  }

  const FRESH := Parse(WantHeader, [], [])

  // ---- Nothing is lost, duplicated or reordered ----

  lemma HeaderBytes(queue: seq<Octet>)
    requires |queue| >= 8
    ensures EncodeHeader(DecodeInt32(queue[..4]), DecodeInt32(queue[4..8])) == queue[..8]
  {
    Int32Bytes(queue[..4]);
    Int32Bytes(queue[4..8]);
  }

  lemma EncodeAllSnoc(messages: seq<Message>, m: Message)
    ensures EncodeAll(messages + [m]) == EncodeAll(messages) + Encode(m)
  {
    EncodeAllAppend(messages, [m]);
    assert EncodeAll([m]) == Encode(m) + EncodeAll([]);
  }

  lemma Regroup(e: seq<Octet>, held: seq<Octet>, q: seq<Octet>, n: nat)
    requires n <= |q|
    ensures e + held + q == (e + (held + q[..n])) + [] + q[n..]
    ensures e + held + q == e + (held + q[..n]) + q[n..]
  {
    assert q == q[..n] + q[n..];
  }

  lemma StepConserves(p: Parse)
    requires p.state.Valid() && p.Enabled()
    ensures p.Step().Bytes() == p.Bytes()
    ensures p.AllWellFormed() ==> p.Step().AllWellFormed()
  {
    hide EncodeHeader, DecodeInt32, EncodeAll;
    var e, q := EncodeAll(p.delivered), p.queue;
    match p.state
    case WantHeader =>
      HeaderBytes(q);
      Regroup(e, [], q, 8);
      assert [] + q[..8] == q[..8];
      var m := Message(DecodeInt32(q[..4]), DecodeInt32(q[4..8]), []);
      EncodeAllSnoc(p.delivered, m);
      assert Encode(m) == q[..8];
    case WantPayload(id, length) =>
      Regroup(e, EncodeHeader(id, length), q, length);
      EncodeAllSnoc(p.delivered, Message(id, length, q[..length]));
  }

  /** However the bytes are parsed, re-encoding what was delivered and adding what is still held
      gives back the bytes that arrived; the parser stops only when it lacks bytes. */
  lemma {:induction false} RunConserves(p: Parse)
    requires p.state.Valid()
    ensures p.Run().Bytes() == p.Bytes() && p.delivered <= p.Run().delivered
    ensures p.AllWellFormed() ==> p.Run().AllWellFormed()
    decreases |p.queue|
  {
    if p.Enabled() {
      StepConserves(p);
      RunConserves(p.Step());
    }
  }

  /** Earlier deliveries play no part in a run. */
  lemma {:induction false} RunHistory(p: Parse)
    requires p.state.Valid()
    ensures
      var q := p.(delivered := []).Run();
      p.Run() == Parse(q.state, q.queue, p.delivered + q.delivered)
    decreases |p.queue|
  {
    RunFrom(p, []);
    assert p.delivered + [] == p.delivered;
  }

  lemma {:induction false} RunFrom(p: Parse, after: seq<Message>)
    requires p.state.Valid()
    ensures
      var q := p.(delivered := after).Run();
      p.(delivered := p.delivered + after).Run() == Parse(q.state, q.queue, p.delivered + q.delivered)
    decreases |p.queue|
  {
    var x, y := p.(delivered := p.delivered + after), p.(delivered := after);
    if p.Enabled() {
      assert x.Step() == y.Step().(delivered := p.delivered + y.Step().delivered);
      RunFrom(y.Step().(delivered := p.delivered), y.Step().delivered);
    }
  }

  // ---- Fragmentation ----

  lemma StepArrive(p: Parse, bytes: seq<Octet>)
    requires p.state.Valid() && p.Enabled()
    ensures p.Arrive(bytes).Enabled() && p.Arrive(bytes).Step() == p.Step().Arrive(bytes)
  {
    hide DecodeInt32;
    var q := p.Arrive(bytes);
    if p.state.WantHeader? {
      assert q.queue[..4] == p.queue[..4] && q.queue[4..8] == p.queue[4..8];
      assert q.queue[8..] == p.queue[8..] + bytes;
    } else {
      assert q.queue[..p.state.length] == p.queue[..p.state.length];
      assert q.queue[p.state.length..] == p.queue[p.state.length..] + bytes;
    }
  }

  /** Parsing early and again later is parsing once at the end. */
  lemma {:induction false} RunArrive(p: Parse, bytes: seq<Octet>)
    requires p.state.Valid()
    ensures p.Run().Arrive(bytes).Run() == p.Arrive(bytes).Run()
    decreases |p.queue|
  {
    if p.Enabled() {
      StepArrive(p, bytes);
      RunArrive(p.Step(), bytes);
    }
  }

  /** The parser after chunks have arrived with a parse after each. */
  function FeedAll(p: Parse, chunks: seq<seq<Octet>>): (r: Parse)
    requires p.state.Valid()
    ensures r.state.Valid()
  {
    if chunks == [] then p.Run()
    else FeedAll(p, chunks[..|chunks| - 1]).Arrive(chunks[|chunks| - 1]).Run()
  }

  /** For every fragmentation of the stream, the messages delivered, the parser's partial state
      and the unread bytes are those of parsing the whole stream at once. */
  lemma {:induction false} FragmentationIndependent(p: Parse, chunks: seq<seq<Octet>>)
    requires p.state.Valid()
    ensures FeedAll(p, chunks) == p.Arrive(Concat(chunks)).Run()
  {
    hide Parse.Run, Parse.Arrive;
    if chunks == [] {
      ArriveTwice(p, [], []);
    } else {
      var init, last := chunks[..|chunks| - 1], chunks[|chunks| - 1];
      FragmentationIndependent(p, init);
      RunArrive(p.Arrive(Concat(init)), last);
      ArriveTwice(p, Concat(init), last);
    }
  }

  lemma ArriveTwice(p: Parse, a: seq<Octet>, b: seq<Octet>)
    ensures p.Arrive(a).Arrive(b) == p.Arrive(a + b)
    ensures p.Arrive([]) == p
  {
    assert p.queue + a + b == p.queue + (a + b);
    assert p.queue + [] == p.queue;
  }

  // ---- Round trip and unique decoding ----

  lemma HeaderDecoded(id: Int32, length: Int32, rest: seq<Octet>)
    ensures
      var q := EncodeHeader(id, length) + rest;
      DecodeInt32(q[..4]) == id && DecodeInt32(q[4..8]) == length && q[8..] == rest
  {
    hide EncodeInt32, DecodeInt32;
    var q := EncodeHeader(id, length) + rest;
    assert q[..4] == EncodeInt32(id) && q[4..8] == EncodeInt32(length);
    Int32RoundTrip(id);
    Int32RoundTrip(length);
  }

  /** A complete frame at the head of the queue is delivered and the rest parsed after it. */
  lemma FrameParsed(m: Message, rest: seq<Octet>, before: seq<Message>)
    requires m.WellFormed()
    ensures Parse(WantHeader, Encode(m) + rest, before).Run()
         == Parse(WantHeader, rest, before + [m]).Run()
  {
    hide EncodeHeader, DecodeInt32;
    var p := Parse(WantHeader, Encode(m) + rest, before);
    assert Encode(m) + rest == EncodeHeader(m.id, m.length) + (m.payload + rest);
    HeaderDecoded(m.id, m.length, m.payload + rest);
    if m.length > 0 {
      var q := Parse(WantPayload(m.id, m.length), m.payload + rest, before);
      assert p.Step() == q;
      assert q.queue[..m.length] == m.payload && q.queue[m.length..] == rest;
      assert q.Step() == Parse(WantHeader, rest, before + [m]);
      assert p.Run() == q.Run() == q.Step().Run();
    } else {
      assert m.payload + rest == rest;
      assert p.Step() == Parse(WantHeader, rest, before + [m]);
    }
  }

  lemma RunEmpty(before: seq<Message>)
    ensures Parse(WantHeader, [], before).Run() == Parse(WantHeader, [], before)
  {
  }

  /** Parsing an encoded list of messages delivers exactly that list. */
  lemma {:induction false} RoundTrip(messages: seq<Message>, before: seq<Message>)
    requires forall i :: 0 <= i < |messages| ==> messages[i].WellFormed()
    ensures Parse(WantHeader, EncodeAll(messages), before).Run()
         == Parse(WantHeader, [], before + messages)
    decreases |messages|
  {
    hide Encode, Parse.Run;
    if messages == [] {
      assert before + messages == before;
      RunEmpty(before);
    } else {
      FrameParsed(messages[0], EncodeAll(messages[1..]), before);
      RoundTrip(messages[1..], before + [messages[0]]);
      assert before + [messages[0]] + messages[1..] == before + messages;
    }
  }

  /** The concatenated encoding is uniquely decodable. */
  lemma {:induction false} UniquelyDecodable(a: seq<Message>, b: seq<Message>)
    requires forall i :: 0 <= i < |a| ==> a[i].WellFormed()
    requires forall i :: 0 <= i < |b| ==> b[i].WellFormed()
    requires EncodeAll(a) == EncodeAll(b)
    ensures a == b
  {
    hide EncodeAll, Parse.Run;
    RoundTrip(a, []);
    RoundTrip(b, []);
    assert [] + a == a && [] + b == b;
  }

  // ---- Sending ----

  /** The bytes `send` writes for a payload: the length field is the size converted to `int`. */
  function Frame(id: Int32, payload: seq<Octet>): (r: seq<Octet>) {
    Encode(Message(id, ToInt32(|payload|), payload))
  }

  /** A frame is the header, with the length cut to 32 bits, and then the payload. */
  lemma FrameLayout(id: Int32, payload: seq<Octet>)
    ensures
      var frame := Frame(id, payload);
      |frame| == 8 + |payload| && frame[..8] == EncodeHeader(id, ToInt32(|payload|)) && frame[8..] == payload
  {
    hide EncodeHeader;
  }

  lemma PositiveTruncation(n: nat)
    ensures n < 0x8000_0000 ==> ToInt32(n) == n
    ensures n >= 0x8000_0000 ==> ToInt32(n) < n
  {
  }

  /** A sent payload is delivered intact, with nothing left over, exactly when it is shorter than
      2^31 bytes. */
  lemma FrameDelivered(id: Int32, payload: seq<Octet>)
    ensures Parse(WantHeader, Frame(id, payload), []).Run()
            == Parse(WantHeader, [], [Message(id, ToInt32(|payload|), payload)])
       <==> |payload| < 0x8000_0000
  {
    var m := Message(id, ToInt32(|payload|), payload);
    PositiveTruncation(|payload|);
    if |payload| < 0x8000_0000 {
      assert Encode(m) + [] == Encode(m) && [] + [m] == [m];
      FrameParsed(m, [], []);
    } else {
      var p := Parse(WantHeader, Frame(id, payload), []);
      RunConserves(p);
    }
  }
}
