/** The request/response protocol over one connection, as a state machine in which every client
    send (catalog add and socket send separately), every fragment carried by the network and
    every parser step at either end is one step, in any interleaving. Either socket may refuse
    what it is asked to send: the client's caller is told, the server's response is lost. */
module Protocol {
  import opened Bytes
  import opened Wire

  // ---- Requests and responses ----

  const LOWER := "abcdefghijklmnopqrstuvwxyz"
  const UPPER := "ABCDEFGHIJKLMNOPQRSTUVWXYZ"

  /** `response` is `request` in upper case: it has no lower-case letter, the letter at position `k` of
      the lower-case alphabet has become the one at position `k` of the upper-case alphabet, and
      every other byte is unchanged. */
  ghost predicate InUpperCase(request: seq<Octet>, response: seq<Octet>) {
    && |response| == |request|
    && (forall i, k :: 0 <= i < |request| && 0 <= k < 26 && request[i] == LOWER[k] as int ==>
          response[i] == UPPER[k] as int)
    && (forall i :: 0 <= i < |request| && !('a' as int <= request[i] <= 'z' as int) ==>
          response[i] == request[i])
    && (forall i :: 0 <= i < |response| ==> !('a' as int <= response[i] <= 'z' as int))
  }

  lemma Alphabets(k: nat)
    requires k < 26
    ensures |LOWER| == |UPPER| == 26
    ensures LOWER[k] as int == 'a' as int + k && UPPER[k] as int == 'A' as int + k
  {
  }

  lemma UpperIsUpperCase(payload: seq<Octet>)
    ensures InUpperCase(payload, Upper(payload))
  {
    forall i, k | 0 <= i < |payload| && 0 <= k < 26 && payload[i] == LOWER[k] as int
      ensures Upper(payload)[i] == UPPER[k] as int
    {
      Alphabets(k);
    }
  }

  function UpperOctet(b: Octet): (r: Octet) {
    if 'a' as int <= b <= 'z' as int then b - 32 else b
  }

  function Upper(payload: seq<Octet>): (r: seq<Octet>)
    ensures |r| == |payload|
    ensures forall i :: 0 <= i < |r| ==> r[i] == UpperOctet(payload[i])
  {
    seq(|payload|, i requires 0 <= i < |payload| => UpperOctet(payload[i]))
  }

  /** The server's answer: same header, payload in upper case. */
  function Respond(request: Message): (r: Message) {
    Message(request.id, request.length, Upper(request.payload))
  }

  /** What a call to `send` asked for. */
  datatype Issue = Issue(id: Int32, payload: seq<Octet>) {
    function Request(): (r: Message) {
      Message(id, ToInt32(|payload|), payload)
    }
  }

  /** A response callback invoked: whose, and with what. */
  datatype Fired = Fired(request: nat, payload: seq<Octet>)

  // ---- The system ----

  /** `issued` numbers every call to `send`; the other fields name calls by that number.
      `pending` is the client's catalog; `server` and `client` are the two parsers with the
      messages they have delivered so far; `up` and `down` are bytes in the network. `dropped`
      numbers, in the order the server received them, the requests whose response its socket
      refused. */
  datatype System = System(
    issued: seq<Issue>,
    pending: map<Int32, nat>,
    unsent: set<nat>,
    failed: set<nat>,
    sent: seq<nat>,
    up: seq<Octet>,
    server: Parse,
    dropped: set<nat>,
    down: seq<Octet>,
    client: Parse,
    fired: seq<Fired>)

  const START := System([], map[], {}, {}, [], [], FRESH, {}, [], FRESH, [])

  datatype Step =
    | Add(id: Int32, payload: seq<Octet>)
    | Transmit(request: nat)
    | Fail(request: nat)
    | CarryUp(n: nat)
    | CarryDown(n: nat)
    | ServerParse(accepted: bool)
    | ClientParse

  ghost predicate WellShaped(s: System) {
    && s.server.state.Valid() && s.client.state.Valid()
    && (forall t :: t in s.unsent || t in s.failed ==> t < |s.issued|)
    && (forall i :: 0 <= i < |s.sent| ==> s.sent[i] < |s.issued|)
  }

  predicate Enabled(s: System, step: Step)
    requires WellShaped(s)
  {
    match step
    case Add(id, payload) => id !in s.pending && |payload| < 0x8000_0000
    case Transmit(t) => t in s.unsent
    case Fail(t) => t in s.unsent
    case CarryUp(n) => 0 < n <= |s.up|
    case CarryDown(n) => 0 < n <= |s.down|
    case ServerParse(_) => s.server.Enabled()
    case ClientParse => s.client.Enabled()
  }

  function Apply(s: System, step: Step): (r: System)
    requires WellShaped(s) && Enabled(s, step)
  {
    match step
    case Add(id, payload) =>
      var t := |s.issued|;
      s.(issued := s.issued + [Issue(id, payload)], pending := s.pending[id := t],
         unsent := s.unsent + {t})
    case Transmit(t) =>
      s.(unsent := s.unsent - {t}, sent := s.sent + [t],
         up := s.up + Encode(s.issued[t].Request()))
    case Fail(t) =>
      s.(unsent := s.unsent - {t}, failed := s.failed + {t})
    case CarryUp(n) =>
      s.(up := s.up[n..], server := s.server.Arrive(s.up[..n]))
    case CarryDown(n) =>
      s.(down := s.down[n..], client := s.client.Arrive(s.down[..n]))
    case ServerParse(accepted) =>
      AnswerNew(s.(server := s.server.Step()), |s.server.delivered|, accepted)
    case ClientParse =>
      DispatchNew(s.(client := s.client.Step()), |s.client.delivered|)
  }

  /** The server answers the request it has just been delivered, if any; nobody learns when its
      socket does not accept the answer. */
  function AnswerNew(s: System, before: nat, accepted: bool): (r: System) {
    if |s.server.delivered| <= before then s
    else if accepted then s.(down := s.down + Encode(Respond(s.server.delivered[before])))
    else s.(dropped := s.dropped + {before})
  }

  /** The client looks up the response it has just been delivered, if any; an unknown
      transaction id is dropped. */
  function DispatchNew(s: System, before: nat): (r: System) {
    if |s.client.delivered| <= before then s
    else
      var response := s.client.delivered[before];
      if response.id !in s.pending then s
      else s.(pending := s.pending - {response.id},
              fired := s.fired + [Fired(s.pending[response.id], response.payload)])
  }

  // ---- The invariant ----

  /** The requests handed to the socket, in order. */
  function Requests(issued: seq<Issue>, sent: seq<nat>): (r: seq<Message>)
    requires forall i :: 0 <= i < |sent| ==> sent[i] < |issued|
    ensures |r| == |sent|
    ensures forall i :: 0 <= i < |r| ==> r[i] == issued[sent[i]].Request()
  {
    seq(|sent|, i requires 0 <= i < |sent| => issued[sent[i]].Request())
  }

  /** The numbers below `n` that were not dropped, in order. */
  function Kept(n: nat, dropped: set<nat>): (r: seq<nat>)
    ensures |r| <= n && forall i :: 0 <= i < |r| ==> r[i] < n
  {
    if n == 0 then []
    else if n - 1 in dropped then Kept(n - 1, dropped) else Kept(n - 1, dropped) + [n - 1]
  }

  lemma {:induction false} KeptInOrder(n: nat, dropped: set<nat>)
    ensures forall i, j :: 0 <= i < j < |Kept(n, dropped)| ==> Kept(n, dropped)[i] < Kept(n, dropped)[j]
    ensures forall k :: 0 <= k < n ==> (k in Kept(n, dropped) <==> k !in dropped)
  {
    if n > 0 {
      KeptInOrder(n - 1, dropped);
    }
  }

  /** Dropping a later one changes nothing. */
  lemma {:induction false} KeptIgnores(n: nat, dropped: set<nat>, k: nat)
    requires n <= k
    ensures Kept(n, dropped + {k}) == Kept(n, dropped)
  {
    if n > 0 {
      KeptIgnores(n - 1, dropped, k);
    }
  }

  lemma {:induction false} KeptPrefix(m: nat, n: nat, dropped: set<nat>)
    requires m <= n
    ensures Kept(m, dropped) <= Kept(n, dropped)
    decreases n
  {
    if m < n {
      KeptPrefix(m, n - 1, dropped);
    }
  }

  /** The requests the server has answered, numbered in the order it received them. */
  function Answered(s: System): (r: seq<nat>)
    ensures forall i :: 0 <= i < |r| ==> r[i] < |s.server.delivered|
  {
    Kept(|s.server.delivered|, s.dropped)
  }

  /** Those of them whose callback has been invoked. */
  function Done(s: System): (r: seq<nat>) {
    Answered(s)[..Min(|s.fired|, |Answered(s)|)]
  }

  function Replies(requests: seq<Message>, answered: seq<nat>): (r: seq<Message>)
    requires forall i :: 0 <= i < |answered| ==> answered[i] < |requests|
    ensures |r| == |answered|
    ensures forall i :: 0 <= i < |r| ==> r[i] == Respond(requests[answered[i]])
  {
    seq(|answered|, i requires 0 <= i < |answered| => Respond(requests[answered[i]]))
  }

  /** The responses the server has written, in order. */
  function Written(s: System): (r: seq<Message>)
    ensures |r| == |Answered(s)|
  {
    Replies(s.server.delivered, Answered(s))
  }

  /** A call whose callback is still waiting. */
  ghost predicate Waiting(s: System, t: nat) {
    t in s.unsent || t in s.failed || exists k :: 0 <= k < |s.sent| && s.sent[k] == t && k !in Done(s)
  }

  /** The bytes in flight carry exactly what was sent. */
  ghost predicate Channels(s: System)
    requires WellShaped(s)
  {
    && s.server.AllWellFormed() && s.client.AllWellFormed()
    && s.server.Bytes() + s.up == EncodeAll(Requests(s.issued, s.sent))
    && s.client.Bytes() + s.down == EncodeAll(Written(s))
  }

  /** Every call is in exactly one place: unsent, failed or sent. */
  ghost predicate Located(s: System)
    requires WellShaped(s)
  {
    && (forall i :: 0 <= i < |s.issued| ==> |s.issued[i].payload| < 0x8000_0000)
    && s.unsent !! s.failed
    && (forall i :: 0 <= i < |s.sent| ==> s.sent[i] !in s.unsent && s.sent[i] !in s.failed)
    && (forall i, j :: 0 <= i < j < |s.sent| ==> s.sent[i] != s.sent[j])
    && (forall t :: 0 <= t < |s.issued| ==> t in s.unsent || t in s.failed || t in s.sent)
  }

  /** The catalog is a bijection between its ids and the waiting calls. */
  ghost predicate Bijection(s: System)
    requires WellShaped(s)
  {
    && (forall id :: id in s.pending ==>
          s.pending[id] < |s.issued| && s.issued[s.pending[id]].id == id && Waiting(s, s.pending[id]))
    && (forall t :: 0 <= t < |s.issued| && Waiting(s, t) ==>
          s.issued[t].id in s.pending && s.pending[s.issued[t].id] == t)
  }

  ghost predicate Catalog(s: System)
    requires WellShaped(s)
  {
    Located(s) && Bijection(s)
  }

  /** Every response delivered has fired the callback of its own request. */
  ghost predicate Callbacks(s: System)
    requires WellShaped(s)
  {
    && |s.fired| == |s.client.delivered| <= |Answered(s)| && |s.server.delivered| <= |s.sent|
    && (forall k :: k in s.dropped ==> k < |s.server.delivered|)
    && (forall i :: 0 <= i < |s.fired| ==>
          var t := s.sent[Answered(s)[i]];
          s.fired[i] == Fired(t, Upper(s.issued[t].payload)))
  }

  ghost predicate Inv(s: System) {
    WellShaped(s) && Channels(s) && Catalog(s) && Callbacks(s)
  }

  // ---- Frames form a prefix code ----

  lemma FirstFrame(m: Message, n: Message, x: seq<Octet>, y: seq<Octet>)
    requires m.WellFormed() && n.WellFormed() && Encode(m) + x == Encode(n) + y
    ensures m == n && x == y
  {
    hide EncodeHeader, DecodeInt32;
    var a, b := m.payload + x, n.payload + y;
    assert Encode(m) + x == EncodeHeader(m.id, m.length) + a;
    assert Encode(n) + y == EncodeHeader(n.id, n.length) + b;
    HeaderDecoded(m.id, m.length, a);
    HeaderDecoded(n.id, n.length, b);
    assert a == b;
    assert m.payload == a[..|m.payload|] && n.payload == b[..|n.payload|];
    assert x == a[|m.payload|..] && y == b[|n.payload|..];
  }

  /** Delivered messages are the first messages sent, and the remaining bytes encode the rest. */
  lemma {:induction false} PrefixCode(a: seq<Message>, x: seq<Octet>, b: seq<Message>)
    requires forall i :: 0 <= i < |a| ==> a[i].WellFormed()
    requires forall i :: 0 <= i < |b| ==> b[i].WellFormed()
    requires EncodeAll(a) + x == EncodeAll(b)
    ensures a <= b && x == EncodeAll(b[|a|..])
    decreases |a|
  {
    hide Encode;
    if a != [] {
      assert EncodeAll(a) + x == Encode(a[0]) + (EncodeAll(a[1..]) + x);
      assert b != [];
      FirstFrame(a[0], b[0], EncodeAll(a[1..]) + x, EncodeAll(b[1..]));
      PrefixCode(a[1..], x, b[1..]);
      assert a == [a[0]] + a[1..] && b == [b[0]] + b[1..];
      assert b[1..][|a[1..]|..] == b[|a|..];
    }
  }

  lemma RequestsWellFormed(s: System)
    requires WellShaped(s) && Catalog(s)
    ensures forall i :: 0 <= i < |s.sent| ==> Requests(s.issued, s.sent)[i].WellFormed()
  {
    forall i | 0 <= i < |s.sent| ensures Requests(s.issued, s.sent)[i].WellFormed() {
      PositiveTruncation(|s.issued[s.sent[i]].payload|);
    }
  }

  /** What the two ends have been delivered is a prefix of what the other end wrote. */
  lemma DeliveredPrefixes(s: System)
    requires WellShaped(s) && Channels(s) && Catalog(s)
    ensures s.server.delivered <= Requests(s.issued, s.sent)
    ensures s.client.delivered <= Written(s)
    ensures s.server.state.Held() + s.server.queue + s.up
         == EncodeAll(Requests(s.issued, s.sent)[|s.server.delivered|..])
    ensures s.client.state.Held() + s.client.queue + s.down
         == EncodeAll(Written(s)[|s.client.delivered|..])
  {
    hide EncodeAll, Catalog, Answered;
    RequestsWellFormed(s);
    var x := s.server.state.Held() + s.server.queue + s.up;
    assert s.server.Bytes() + s.up == EncodeAll(s.server.delivered) + x;
    PrefixCode(s.server.delivered, x, Requests(s.issued, s.sent));
    var y := s.client.state.Held() + s.client.queue + s.down;
    assert s.client.Bytes() + s.down == EncodeAll(s.client.delivered) + y;
    PrefixCode(s.client.delivered, y, Written(s));
  }

  // ---- Every step keeps the invariant ----

  lemma StartInv()
    ensures Inv(START)
  {
  }

  lemma SameChannels(s: System, s': System)
    requires WellShaped(s) && WellShaped(s') && Channels(s)
    requires Requests(s'.issued, s'.sent) == Requests(s.issued, s.sent)
    requires s'.server == s.server && s'.client == s.client && s'.up == s.up && s'.down == s.down
    requires s'.dropped == s.dropped
    ensures Channels(s')
  {
  }

  lemma AddInv(s: System, id: Int32, payload: seq<Octet>)
    requires Inv(s) && Enabled(s, Add(id, payload))
    ensures Inv(Apply(s, Add(id, payload)))
  {
    hide EncodeAll, Catalog;
    var s' := Apply(s, Add(id, payload));
    AddCatalog(s, s', id, payload);
    assert Requests(s'.issued, s'.sent) == Requests(s.issued, s.sent);
    SameChannels(s, s');
  }

  lemma AddCatalog(s: System, s': System, id: Int32, payload: seq<Octet>)
    requires WellShaped(s) && Catalog(s) && Enabled(s, Add(id, payload))
    requires s' == Apply(s, Add(id, payload))
    ensures WellShaped(s') && Catalog(s')
  {
    hide Bijection;
    AddBijection(s, s', id, payload);
  }

  lemma AddBijection(s: System, s': System, id: Int32, payload: seq<Octet>)
    requires WellShaped(s) && WellShaped(s') && Bijection(s) && Enabled(s, Add(id, payload))
    requires s' == Apply(s, Add(id, payload))
    ensures Bijection(s')
  {
    assert Done(s') == Done(s);
    assert forall t :: 0 <= t < |s.issued| ==> (Waiting(s', t) <==> Waiting(s, t));
    assert Waiting(s', |s.issued|);
  }

  lemma TransmitInv(s: System, t: nat)
    requires Inv(s) && Enabled(s, Transmit(t))
    ensures Inv(Apply(s, Transmit(t)))
  {
    hide EncodeAll, Encode, Catalog, Parse.Bytes;
    var s' := Apply(s, Transmit(t));
    var m := s.issued[t].Request();
    TransmitCatalog(s, s', t);
    assert Requests(s'.issued, s'.sent) == Requests(s.issued, s.sent) + [m];
    EncodeAllSnoc(Requests(s.issued, s.sent), m);
    assert s'.server.Bytes() + s'.up == (s.server.Bytes() + s.up) + Encode(m);
  }

  lemma TransmitCatalog(s: System, s': System, t: nat)
    requires WellShaped(s) && Catalog(s) && Enabled(s, Transmit(t)) && |s.server.delivered| <= |s.sent|
    requires s' == Apply(s, Transmit(t))
    ensures WellShaped(s') && Catalog(s')
  {
    hide Encode, Answered;
    SameAnswers(s, s');
    assert s'.sent[|s.sent|] == t && |s.sent| !in Done(s);
    forall u | 0 <= u < |s.issued| ensures Waiting(s', u) <==> Waiting(s, u) {
      if k :| 0 <= k < |s.sent| && s.sent[k] == u && k !in Done(s) {
        assert s'.sent[k] == u;
      }
    }
    assert forall u :: u in s.sent ==> u in s'.sent;
  }

  lemma FailInv(s: System, t: nat)
    requires Inv(s) && Enabled(s, Fail(t))
    ensures Inv(Apply(s, Fail(t)))
  {
    hide EncodeAll, Answered, Done, Channels;
    var s' := Apply(s, Fail(t));
    SameChannels(s, s');
    SameAnswers(s, s');
    forall u | 0 <= u < |s.issued| ensures Waiting(s', u) <==> Waiting(s, u) {
    }
  }

  lemma ArriveBytes(p: Parse, wire: seq<Octet>, n: nat)
    requires n <= |wire|
    ensures p.Arrive(wire[..n]).Bytes() + wire[n..] == p.Bytes() + wire
    ensures p.Arrive(wire[..n]).delivered == p.delivered
  {
    assert wire == wire[..n] + wire[n..];
  }

  lemma CarryInv(s: System, n: nat)
    requires Inv(s)
    ensures Enabled(s, CarryUp(n)) ==> Inv(Apply(s, CarryUp(n)))
    ensures Enabled(s, CarryDown(n)) ==> Inv(Apply(s, CarryDown(n)))
  {
    hide EncodeAll;
    if Enabled(s, CarryUp(n)) {
      ArriveBytes(s.server, s.up, n);
      SameCatalog(s, Apply(s, CarryUp(n)));
    }
    if Enabled(s, CarryDown(n)) {
      ArriveBytes(s.client, s.down, n);
      SameCatalog(s, Apply(s, CarryDown(n)));
    }
  }

  lemma SameCatalog(s: System, s': System)
    requires WellShaped(s) && WellShaped(s') && Catalog(s)
    requires s'.issued == s.issued && s'.pending == s.pending && s'.unsent == s.unsent
    requires s'.failed == s.failed && s'.sent == s.sent && Done(s') == Done(s)
    ensures Catalog(s')
  {
    forall t | 0 <= t < |s.issued| ensures Waiting(s', t) <==> Waiting(s, t) {
    }
  }

  lemma StepDelivers(p: Parse)
    requires p.state.Valid() && p.Enabled()
    ensures p.Step().delivered == p.delivered
         || p.Step().delivered == p.delivered + [p.Step().delivered[|p.delivered|]]
  {
  }

  /** The server's answer, whether accepted or not, does not touch the calls already done. */
  lemma AnsweredNext(s: System, s': System, accepted: bool)
    requires WellShaped(s) && Callbacks(s) && s.server.Enabled()
    requires s' == Apply(s, ServerParse(accepted))
    ensures
      var k := |s.server.delivered|;
      && Done(s') == Done(s)
      && Answered(s') == if |s'.server.delivered| > k && accepted then Answered(s) + [k] else Answered(s)
  {
    hide Parse.Step;
    StepDelivers(s.server);
    KeptIgnores(|s.server.delivered|, s.dropped, |s.server.delivered|);
  }

  lemma WrittenNext(s: System, s': System, m: Message)
    requires s'.server.delivered == s.server.delivered + [m]
    requires Answered(s') == Answered(s) + [|s.server.delivered|]
    ensures Written(s') == Written(s) + [Respond(m)]
  {
    hide Answered, Respond;
  }

  lemma WrittenSame(s: System, s': System)
    requires s.server.delivered <= s'.server.delivered && Answered(s') == Answered(s)
    ensures Written(s') == Written(s)
  {
    hide Answered, Respond;
  }

  lemma ServerDown(s: System, s': System, accepted: bool)
    requires WellShaped(s) && Callbacks(s) && s.server.Enabled()
    requires s' == Apply(s, ServerParse(accepted))
    requires s.client.Bytes() + s.down == EncodeAll(Written(s))
    ensures s'.client.Bytes() + s'.down == EncodeAll(Written(s'))
  {
    hide EncodeAll, Encode, Parse.Step, Parse.Bytes, Answered, Done, Respond, Written, Callbacks;
    StepDelivers(s.server);
    AnsweredNext(s, s', accepted);
    var k := |s.server.delivered|;
    if |s'.server.delivered| > k && accepted {
      var m := s'.server.delivered[k];
      WrittenNext(s, s', m);
      EncodeAllSnoc(Written(s), Respond(m));
      assert s'.client.Bytes() + s'.down == (s.client.Bytes() + s.down) + Encode(Respond(m));
    } else {
      WrittenSame(s, s');
    }
  }

  lemma ServerChannels(s: System, s': System, accepted: bool)
    requires Inv(s) && Enabled(s, ServerParse(accepted)) && s' == Apply(s, ServerParse(accepted))
    ensures WellShaped(s') && Channels(s')
  {
    hide EncodeAll, Encode, Parse.Step, Parse.Bytes, Answered, Done, Respond, Written, Catalog, Callbacks;
    StepConserves(s.server);
    ServerDown(s, s', accepted);
  }

  lemma ServerInv(s: System, accepted: bool)
    requires Inv(s) && Enabled(s, ServerParse(accepted))
    ensures Inv(Apply(s, ServerParse(accepted)))
  {
    hide EncodeAll, Encode, Parse.Step, Parse.Bytes, Answered, Done, Channels, Catalog;
    var s' := Apply(s, ServerParse(accepted));
    ServerChannels(s, s', accepted);
    AnsweredNext(s, s', accepted);
    SameCatalog(s, s');
    DeliveredPrefixes(s');
    StepDelivers(s.server);
  }

  /** The next response in order is in the catalog and belongs to the next answered request. */
  lemma NextResponse(s: System, m: Message)
    requires Inv(s) && s.client.delivered + [m] <= Written(s)
    ensures
      var k := |s.fired|;
      && k == |s.client.delivered| < |Answered(s)| && Answered(s)[k] < |s.sent|
      && var t := s.sent[Answered(s)[k]];
         && m == Respond(s.issued[t].Request()) && m.id == s.issued[t].id
         && m.id in s.pending && s.pending[m.id] == t
  {
    hide EncodeAll, Answered;
    DeliveredPrefixes(s);
    var k := Answered(s)[|s.fired|];
    assert m == Written(s)[|s.fired|];
    assert s.server.delivered[k] == Requests(s.issued, s.sent)[k];
    NotDone(s);
    assert Waiting(s, s.sent[k]);
  }

  lemma NotDone(s: System)
    requires |s.fired| < |Answered(s)|
    ensures Answered(s)[|s.fired|] !in Done(s)
  {
    KeptInOrder(|s.server.delivered|, s.dropped);
  }

  lemma ClientInv(s: System)
    requires Inv(s) && Enabled(s, ClientParse)
    ensures Inv(Apply(s, ClientParse))
  {
    hide EncodeAll, Encode, Parse.Step, Parse.Bytes, Answered, Requests, Catalog, Callbacks, Respond;
    var s' := Apply(s, ClientParse);
    StepConserves(s.client);
    StepDelivers(s.client);
    assert s'.dropped == s.dropped && s'.server == s.server;
    SameAnswers(s, s');
    if s'.client.delivered == s.client.delivered {
      SameCatalog(s, s');
      SameCallbacks(s, s');
    } else {
      var m := s'.client.delivered[|s.client.delivered|];
      ClientPrefix(s, s.client.Step());
      NextResponse(s, m);
      DispatchCatalog(s, s', m);
      DispatchCallbacks(s, s', m);
    }
  }

  lemma SameAnswers(s: System, s': System)
    requires s'.server == s.server && s'.dropped == s.dropped
    ensures Answered(s') == Answered(s) && Written(s') == Written(s)
    ensures |s'.fired| == |s.fired| ==> Done(s') == Done(s)
  {
  }

  lemma SameCallbacks(s: System, s': System)
    requires WellShaped(s) && WellShaped(s') && Callbacks(s)
    requires s'.issued == s.issued && s'.sent == s.sent && s'.fired == s.fired
    requires s'.client.delivered == s.client.delivered
    requires s'.server == s.server && s'.dropped == s.dropped
    ensures Callbacks(s')
  {
  }

  lemma DispatchCallbacks(s: System, s': System, m: Message)
    requires WellShaped(s) && WellShaped(s') && Callbacks(s) && |s.fired| < |Answered(s)|
    requires m == Respond(s.issued[s.sent[Answered(s)[|s.fired|]]].Request())
    requires s'.issued == s.issued && s'.sent == s.sent
    requires s'.server == s.server && s'.dropped == s.dropped
    requires s'.client.delivered == s.client.delivered + [m]
    requires s'.fired == s.fired + [Fired(s.sent[Answered(s)[|s.fired|]], m.payload)]
    ensures Callbacks(s')
  {
    assert Answered(s') == Answered(s);
    hide Answered;
  }

  lemma ClientPrefix(s: System, p: Parse)
    requires Inv(s) && p.Bytes() == s.client.Bytes() && p.AllWellFormed()
    ensures p.delivered <= Written(s)
  {
    hide EncodeAll, Answered;
    var y := p.state.Held() + p.queue + s.down;
    assert p.Bytes() + s.down == EncodeAll(p.delivered) + y;
    PrefixCode(p.delivered, y, Written(s));
  }

  lemma DispatchCatalog(s: System, s': System, m: Message)
    requires Inv(s) && WellShaped(s') && |s.fired| < |Answered(s)|
    requires m.id == s.issued[s.sent[Answered(s)[|s.fired|]]].id
    requires s'.issued == s.issued && s'.unsent == s.unsent && s'.failed == s.failed
    requires s'.sent == s.sent && |s'.fired| == |s.fired| + 1
    requires s'.server == s.server && s'.dropped == s.dropped
    requires s'.pending == s.pending - {m.id}
    ensures Catalog(s')
  {
    hide Channels, Waiting, Answered;
    SameAnswers(s, s');
    DispatchWaiting(s, s');
    assert Waiting(s, s.sent[Answered(s)[|s.fired|]]);
  }

  /** The call whose callback is invoked, and no other, stops waiting. */
  lemma DispatchWaiting(s: System, s': System)
    requires WellShaped(s) && WellShaped(s') && Located(s) && |s.fired| < |Answered(s)|
    requires |s.server.delivered| <= |s.sent|
    requires s'.unsent == s.unsent && s'.failed == s.failed && s'.sent == s.sent
    requires Answered(s') == Answered(s) && |s'.fired| == |s.fired| + 1
    ensures
      var t := s.sent[Answered(s)[|s.fired|]];
      Waiting(s, t) && forall u :: Waiting(s', u) <==> Waiting(s, u) && u != t
  {
    hide Answered;
    var k := Answered(s)[|s.fired|];
    assert Done(s') == Done(s) + [k];
    NotDone(s);
    hide Done;
    var t := s.sent[k];
    assert Waiting(s, t);
    forall u ensures Waiting(s', u) <==> Waiting(s, u) && u != t {
      if Waiting(s, u) && u != t && u !in s.unsent && u !in s.failed {
        var i :| 0 <= i < |s.sent| && s.sent[i] == u && i !in Done(s);
        assert i !in Done(s');
      }
    }
  }

  lemma StepInv(s: System, step: Step)
    requires Inv(s) && Enabled(s, step)
    ensures Inv(Apply(s, step))
  {
    hide Inv, Apply;
    match step
    case Add(id, payload) => AddInv(s, id, payload);
    case Transmit(t) => TransmitInv(s, t);
    case Fail(t) => FailInv(s, t);
    case CarryUp(n) => CarryInv(s, n);
    case CarryDown(n) => CarryInv(s, n);
    case ServerParse(accepted) => ServerInv(s, accepted);
    case ClientParse => ClientInv(s);
  }

  // ---- Runs ----

  /** `s` is reached from the start by the given steps, each enabled when taken. */
  ghost predicate Reaches(steps: seq<Step>, s: System) {
    if steps == [] then s == START
    else exists r :: Reaches(steps[..|steps| - 1], r) && WellShaped(r)
                     && Enabled(r, steps[|steps| - 1]) && s == Apply(r, steps[|steps| - 1])
  }

  /** The invariant holds in every state of every run. */
  lemma {:induction false} RunInv(steps: seq<Step>, s: System)
    requires Reaches(steps, s)
    ensures Inv(s)
  {
    hide Inv, Apply;
    if steps == [] {
      StartInv();
    } else {
      var init, last := steps[..|steps| - 1], steps[|steps| - 1];
      var r :| Reaches(init, r) && WellShaped(r) && Enabled(r, last) && s == Apply(r, last);
      RunInv(init, r);
      StepInv(r, last);
    }
  }

  // ---- What every run guarantees ----

  ghost function Ids(issued: seq<Issue>, calls: set<nat>): (ids: set<Int32>)
    requires forall t :: t in calls ==> t < |issued|
  {
    set t | t in calls :: issued[t].id
  }

  /** The calls sent at the given positions. */
  ghost function SentAt(s: System, positions: set<nat>): (calls: set<nat>)
    requires forall k :: k in positions ==> k < |s.sent|
  {
    set k | k in positions :: s.sent[k]
  }

  function Range(lo: nat, hi: nat): (r: set<nat>)
    ensures forall k :: k in r <==> lo <= k < hi
  {
    if lo >= hi then {} else Range(lo, hi - 1) + {hi - 1}
  }

  /** Positions of the requests that have not been delivered to the server. */
  ghost function Travelling(s: System): (positions: set<nat>) {
    Range(|s.server.delivered|, |s.sent|)
  }

  /** Positions of the requests whose response has been written and not been delivered. */
  ghost function Returning(s: System): (positions: set<nat>) {
    set i | |s.fired| <= i < |Answered(s)| :: Answered(s)[i]
  }

  /** The five places in which the callback of a call can wait. */
  datatype Places = Places(unsent: set<nat>, failed: set<nat>, requests: set<nat>,
                           responses: set<nat>, dropped: set<nat>)
  {
    ghost function Union(): (calls: set<nat>) {
      unsent + failed + requests + responses + dropped
    }

    ghost predicate Disjoint() {
      unsent !! failed !! requests !! responses !! dropped
    }
  }

  ghost predicate Counted(s: System) {
    && |s.server.delivered| <= |s.sent| && |s.fired| <= |Answered(s)|
    && (forall k :: k in s.dropped ==> k < |s.server.delivered|)
  }

  /** Where the callbacks of a state wait. */
  ghost function PlacesOf(s: System): (p: Places)
    requires Counted(s)
  {
    Places(s.unsent, s.failed, SentAt(s, Travelling(s)), SentAt(s, Returning(s)), SentAt(s, s.dropped))
  }

  /** Every position is done or in exactly one of the other places. */
  lemma PositionsCovered(s: System)
    requires Counted(s)
    ensures forall k :: 0 <= k < |s.sent| ==>
      (k !in Done(s) <==> k in Travelling(s) || k in Returning(s) || k in s.dropped)
    ensures Travelling(s) !! Returning(s) !! s.dropped
    ensures forall k :: k in Travelling(s) || k in Returning(s) || k in s.dropped ==> k < |s.sent|
  {
    hide Kept;
    KeptInOrder(|s.server.delivered|, s.dropped);
    forall k | 0 <= k < |s.server.delivered| && k !in s.dropped
      ensures k in Done(s) <==> k !in Returning(s)
    {
      var i :| 0 <= i < |Answered(s)| && Answered(s)[i] == k;
      assert i < |s.fired| ==> Done(s)[i] == k;
    }
  }

  /** The places hold exactly the waiting calls, each in one place. */
  lemma PlacesOfWaiting(s: System)
    requires Inv(s)
    ensures Counted(s) && PlacesOf(s).Disjoint()
    ensures forall t :: t in PlacesOf(s).Union() <==> Waiting(s, t)
  {
    hide Channels, Answered, Done, Travelling, Returning, Bijection;
    PositionsCovered(s);
    SentApart(s, Travelling(s), Returning(s));
    SentApart(s, Travelling(s) + Returning(s), s.dropped);
  }

  lemma SentApart(s: System, x: set<nat>, y: set<nat>)
    requires WellShaped(s) && Located(s) && x !! y
    requires forall k :: k in x || k in y ==> k < |s.sent|
    ensures SentAt(s, x) !! SentAt(s, y)
    ensures SentAt(s, x + y) == SentAt(s, x) + SentAt(s, y)
  {
    forall k, j | k in x && j in y ensures s.sent[k] != s.sent[j] {
      assert k != j;
    }
  }

  /** Two waiting calls never share an id. */
  lemma WaitingIdsDiffer(s: System, t: nat, u: nat)
    requires Inv(s) && t < |s.issued| && u < |s.issued| && t != u && Waiting(s, t) && Waiting(s, u)
    ensures s.issued[t].id != s.issued[u].id
  {
  }

  /** The calls of a place are calls that were made. */
  lemma PlacesBelow(s: System)
    requires Inv(s) && Counted(s)
    ensures forall t :: t in PlacesOf(s).Union() ==> t < |s.issued|
  {
    hide Channels, Answered, Done;
    PlacesOfWaiting(s);
  }

  /** In every run, the catalog's ids are the disjoint union of the ids added but not yet sent,
      the ids whose send was refused, the ids of requests in flight, the ids of responses in
      flight, and the ids of responses the server's socket refused. */
  lemma PendingPartition(steps: seq<Step>, s: System)
    requires Reaches(steps, s)
    ensures WellShaped(s) && Counted(s)
    ensures forall t :: t in PlacesOf(s).Union() ==> t < |s.issued|
    ensures
      var p := PlacesOf(s);
      && s.pending.Keys == Ids(s.issued, p.unsent) + Ids(s.issued, p.failed)
           + Ids(s.issued, p.requests) + Ids(s.issued, p.responses) + Ids(s.issued, p.dropped)
      && Ids(s.issued, p.unsent) !! Ids(s.issued, p.failed) !! Ids(s.issued, p.requests)
           !! Ids(s.issued, p.responses) !! Ids(s.issued, p.dropped)
  {
    hide Inv, PlacesOf;
    RunInv(steps, s);
    ShapeOf(s);
    PlacesOfWaiting(s);
    PlacesBelow(s);
    var p := PlacesOf(s);
    PendingIds(s, p.Union());
    IdsUnion(s, p.unsent, p.failed);
    IdsUnion(s, p.unsent + p.failed, p.requests);
    IdsUnion(s, p.unsent + p.failed + p.requests, p.responses);
    IdsUnion(s, p.unsent + p.failed + p.requests + p.responses, p.dropped);
  }

  lemma ShapeOf(s: System)
    requires Inv(s)
    ensures WellShaped(s)
  {
  }

  lemma PendingIds(s: System, calls: set<nat>)
    requires Inv(s) && forall t :: t in calls <==> Waiting(s, t)
    requires forall t :: t in calls ==> t < |s.issued|
    ensures s.pending.Keys == Ids(s.issued, calls)
  {
    hide Channels, Callbacks, Waiting;
    forall id | id in s.pending ensures id in Ids(s.issued, calls) {
      assert s.pending[id] in calls;
    }
  }

  lemma IdsUnion(s: System, x: set<nat>, y: set<nat>)
    requires Inv(s) && x !! y
    requires forall t :: t in x || t in y ==> t < |s.issued| && Waiting(s, t)
    ensures Ids(s.issued, x) !! Ids(s.issued, y)
    ensures Ids(s.issued, x + y) == Ids(s.issued, x) + Ids(s.issued, y)
  {
    hide Inv, Waiting;
    forall t, u | t in x && u in y ensures s.issued[t].id != s.issued[u].id {
      WaitingIdsDiffer(s, t, u);
    }
  }

  /** In every run, the callbacks invoked are, in order, those of the calls sent and not dropped,
      each with the upper case of its own payload; none is invoked twice. */
  lemma CallbacksCorrect(steps: seq<Step>, s: System)
    requires Reaches(steps, s)
    ensures WellShaped(s) && |s.fired| <= |Kept(|s.sent|, s.dropped)|
    ensures forall i :: 0 <= i < |s.fired| ==>
      var t := s.sent[Kept(|s.sent|, s.dropped)[i]];
      s.fired[i] == Fired(t, Upper(s.issued[t].payload))
      && InUpperCase(s.issued[t].payload, s.fired[i].payload)
    ensures forall i, j :: 0 <= i < j < |s.fired| ==> s.fired[i].request != s.fired[j].request
  {
    hide Reaches, Channels, Kept, Bijection;
    RunInv(steps, s);
    KeptPrefix(|s.server.delivered|, |s.sent|, s.dropped);
    KeptInOrder(|s.sent|, s.dropped);
    SentOnce(s, Kept(|s.sent|, s.dropped));
    hide InUpperCase, Upper;
    forall i | 0 <= i < |s.fired|
      ensures InUpperCase(s.issued[s.sent[Kept(|s.sent|, s.dropped)[i]]].payload, s.fired[i].payload)
    {
      UpperIsUpperCase(s.issued[s.sent[Kept(|s.sent|, s.dropped)[i]]].payload);
    }
  }

  /** Different positions hold different calls. */
  lemma SentOnce(s: System, positions: seq<nat>)
    requires WellShaped(s) && Located(s)
    requires forall i :: 0 <= i < |positions| ==> positions[i] < |s.sent|
    requires forall i, j :: 0 <= i < j < |positions| ==> positions[i] < positions[j]
    ensures forall i, j :: 0 <= i < j < |positions| ==> s.sent[positions[i]] != s.sent[positions[j]]
  {
  }

  /** Nothing is in the network, in a queue or half parsed. */
  predicate Quiet(s: System) {
    s.up == [] && s.down == [] && s.server.queue == [] && s.client.queue == []
    && s.server.state.WantHeader? && s.client.state.WantHeader?
  }

  lemma NoFramesLeft(messages: seq<Message>)
    requires EncodeAll(messages) == []
    ensures messages == []
  {
  }

  lemma QuietCounts(s: System)
    requires Inv(s) && Quiet(s)
    ensures |s.server.delivered| == |s.sent| && |s.fired| == |Answered(s)|
  {
    hide Catalog, Answered;
    DeliveredPrefixes(s);
    NoFramesLeft(Requests(s.issued, s.sent)[|s.server.delivered|..]);
    NoFramesLeft(Written(s)[|s.client.delivered|..]);
  }

  /** The callback of a call has been invoked. */
  ghost predicate HasFired(s: System, t: nat) {
    exists i :: 0 <= i < |s.fired| && s.fired[i].request == t
  }

  /** When both channels have drained, a request that was sent has had its callback invoked if and
      only if its response was not dropped; so all have if and only if nothing was dropped. Only
      unsent, failed and dropped calls remain in the catalog. */
  lemma QuietComplete(steps: seq<Step>, s: System)
    requires Reaches(steps, s) && Quiet(s)
    ensures WellShaped(s) && Counted(s)
    ensures forall k :: 0 <= k < |s.sent| ==> (HasFired(s, s.sent[k]) <==> k !in s.dropped)
    ensures (forall t :: t in s.sent ==> HasFired(s, t)) <==> s.dropped == {}
    ensures forall t :: t in PlacesOf(s).Union() ==> t < |s.issued|
    ensures s.pending.Keys
         == Ids(s.issued, s.unsent) + Ids(s.issued, s.failed) + Ids(s.issued, SentAt(s, s.dropped))
  {
    hide Reaches, Channels, Bijection, Quiet;
    RunInv(steps, s);
    QuietCounts(s);
    forall k | 0 <= k < |s.sent| ensures HasFired(s, s.sent[k]) <==> k !in s.dropped {
      QuietFired(s, k);
    }
    if s.dropped != {} {
      var k :| k in s.dropped;
      assert s.sent[k] in s.sent;
    }
    PendingPartition(steps, s);
    assert Travelling(s) == {} && Returning(s) == {};
  }

  lemma QuietFired(s: System, k: nat)
    requires Inv(s) && |s.server.delivered| == |s.sent| && |s.fired| == |Answered(s)| && k < |s.sent|
    ensures HasFired(s, s.sent[k]) <==> k !in s.dropped
  {
    hide Channels, Bijection, Quiet;
    KeptInOrder(|s.server.delivered|, s.dropped);
    if k !in s.dropped {
      var i :| 0 <= i < |Answered(s)| && Answered(s)[i] == k;
      assert s.fired[i].request == s.sent[k];
    }
  }

  /** A run in which the server's socket refuses a response: everything has drained and the one
      request sent has not been answered. */
  lemma DroppedExample() returns (steps: seq<Step>, s: System)
    ensures Reaches(steps, s) && Quiet(s) && s.sent == [0] && !HasFired(s, 0) && 5 in s.pending
  {
    hide EncodeHeader, Reaches;
    steps, s := RequestArrives(5);
    var parse := ServerParse(false);
    HeaderDecoded(5, 0, []);
    assert EncodeHeader(5, 0) + [] == EncodeHeader(5, 0);
    hide DecodeInt32;
    ReachesNext(steps, s, parse);
    steps, s := steps + [parse], Apply(s, parse);
  }

  /** The first request, without payload, reaches the server's queue. */
  lemma RequestArrives(id: Int32) returns (steps: seq<Step>, s: System)
    ensures Reaches(steps, s)
    ensures s == START.(issued := [Issue(id, [])], pending := map[id := 0], sent := [0],
                        server := FRESH.(queue := EncodeHeader(id, 0)))
  {
    hide EncodeHeader;
    steps, s := RequestSent(id);
    var carry := CarryUp(8);
    ReachesNext(steps, s, carry);
    assert EncodeHeader(id, 0)[..8] == EncodeHeader(id, 0) && [] + EncodeHeader(id, 0) == EncodeHeader(id, 0);
    steps, s := steps + [carry], Apply(s, carry);
  }

  lemma RequestSent(id: Int32) returns (steps: seq<Step>, s: System)
    ensures Reaches(steps, s)
    ensures s == START.(issued := [Issue(id, [])], pending := map[id := 0], sent := [0],
                        up := EncodeHeader(id, 0))
  {
    hide Reaches, EncodeHeader;
    steps, s := RequestAdded(id);
    var transmit := Transmit(0);
    ReachesNext(steps, s, transmit);
    assert s.issued[0].Request() == Message(id, 0, []);
    assert [] + (EncodeHeader(id, 0) + []) == EncodeHeader(id, 0);
    steps, s := steps + [transmit], Apply(s, transmit);
  }

  lemma RequestAdded(id: Int32) returns (steps: seq<Step>, s: System)
    ensures Reaches(steps, s)
    ensures s == START.(issued := [Issue(id, [])], pending := map[id := 0], unsent := {0})
  {
    var add := Add(id, []);
    steps, s := [], START;
    assert Reaches(steps, s);
    hide Reaches, Encode;
    ReachesNext(steps, s, add);
    steps, s := steps + [add], Apply(s, add);
  }

  // ---- Delivery always completes ----

  predicate IsDelivery(step: Step) {
    step.CarryUp? || step.CarryDown? || step.ServerParse? || step.ClientParse?
  }

  /** Bytes still to travel, weighted by how far they have to go. */
  function Distance(s: System): (d: nat) {
    6 * |s.up| + 5 * |s.server.queue| + 4 * |s.server.state.Held()|
    + 3 * |s.down| + 2 * |s.client.queue| + |s.client.state.Held()|
  }

  lemma StepSizes(p: Parse)
    requires p.state.Valid() && p.Enabled()
    ensures
      var q := p.Step();
      if q.delivered == p.delivered then
        |q.queue| == |p.queue| - 8 && |q.state.Held()| == 8 && p.state.Held() == []
      else
        && |q.delivered| == |p.delivered| + 1 && q.state.Held() == []
        && 8 + |q.delivered[|p.delivered|].payload| == |p.queue| - |q.queue| + |p.state.Held()|
  {
    hide DecodeInt32, EncodeHeader;
  }

  /** Every delivery step brings the bytes closer, so delivery cannot go on for ever. */
  lemma DeliveryProgress(s: System, step: Step)
    requires WellShaped(s) && Enabled(s, step) && IsDelivery(step)
    ensures Distance(Apply(s, step)) < Distance(s)
  {
    hide Parse.Step, ParserState.Held, Encode;
    if step.ServerParse? {
      StepSizes(s.server);
    } else if step.ClientParse? {
      StepSizes(s.client);
    }
  }

  lemma FrameReady(p: Parse, m: Message, rest: seq<Octet>)
    requires p.state.Valid() && m.WellFormed()
    requires p.state.Held() + p.queue == Encode(m) + rest
    ensures p.Enabled()
  {
    hide EncodeHeader, DecodeInt32;
    assert Encode(m) + rest == EncodeHeader(m.id, m.length) + (m.payload + rest);
    if p.state.WantPayload? {
      HeaderDecoded(m.id, m.length, m.payload + rest);
      HeaderDecoded(p.state.id, p.state.length, p.queue);
    }
  }

  lemma {:induction false} ParserReady(p: Parse, messages: seq<Message>)
    requires p.state.Valid() && p.state.Held() + p.queue == EncodeAll(messages)
    requires forall i :: 0 <= i < |messages| ==> messages[i].WellFormed()
    requires p.queue != [] || p.state.WantPayload?
    ensures p.Enabled()
  {
    hide Encode, EncodeHeader;
    assert messages != [];
    FrameReady(p, messages[0], EncodeAll(messages[1..]));
  }

  /** As long as anything is in flight, some delivery step can be taken; if it is the server's, its
      socket may accept the response. */
  lemma DeliveryNotStuck(s: System) returns (step: Step)
    requires Inv(s) && !Quiet(s)
    ensures WellShaped(s) && IsDelivery(step) && Enabled(s, step)
    ensures step.ServerParse? ==> step.accepted
  {
    hide EncodeAll, Answered;
    DeliveredPrefixes(s);
    RequestsWellFormed(s);
    if s.up != [] {
      step := CarryUp(1);
    } else if s.down != [] {
      step := CarryDown(1);
    } else if s.server.queue != [] || s.server.state.WantPayload? {
      assert s.server.state.Held() + s.server.queue + s.up == s.server.state.Held() + s.server.queue;
      ParserReady(s.server, Requests(s.issued, s.sent)[|s.server.delivered|..]);
      step := ServerParse(true);
    } else {
      assert s.client.state.Held() + s.client.queue + s.down == s.client.state.Held() + s.client.queue;
      ParserReady(s.client, Written(s)[|s.client.delivered|..]);
      step := ClientParse;
    }
  }

  lemma ReachesNext(steps: seq<Step>, s: System, step: Step)
    requires Reaches(steps, s) && WellShaped(s) && Enabled(s, step)
    ensures Reaches(steps + [step], Apply(s, step))
  {
    hide Apply, Enabled;
    assert (steps + [step])[..|steps|] == steps;
  }

  /** The steps determine the state they reach. */
  lemma {:induction false} ReachesSame(steps: seq<Step>, s: System, t: System)
    requires Reaches(steps, s) && Reaches(steps, t)
    ensures s == t
  {
    hide Apply, Enabled, WellShaped;
    if steps != [] {
      var init, last := steps[..|steps| - 1], steps[|steps| - 1];
      var r :| Reaches(init, r) && WellShaped(r) && Enabled(r, last) && s == Apply(r, last);
      var q :| Reaches(init, q) && WellShaped(q) && Enabled(q, last) && t == Apply(q, last);
      ReachesSame(init, r, q);
    }
  }

  predicate AllDeliveries(steps: seq<Step>) {
    forall i :: 0 <= i < |steps| ==> IsDelivery(steps[i])
  }

  /** Every run of delivery steps, in whatever order they come and whatever the server's socket
      accepts, is at most as long as the distance. */
  lemma {:induction false} DeliveryBounded(steps: seq<Step>, s: System, more: seq<Step>, t: System)
    requires Reaches(steps, s) && Reaches(steps + more, t) && AllDeliveries(more)
    ensures |more| + Distance(t) <= Distance(s)
    ensures t.sent == s.sent && t.issued == s.issued
    decreases |more|
  {
    hide Apply, Enabled, WellShaped, Distance, IsDelivery;
    if more == [] {
      assert steps + more == steps;
      ReachesSame(steps, s, t);
    } else {
      var init, last := more[..|more| - 1], more[|more| - 1];
      var all := steps + more;
      assert all[..|all| - 1] == steps + init && all[|all| - 1] == last;
      var r :| Reaches(steps + init, r) && WellShaped(r) && Enabled(r, last) && t == Apply(r, last);
      DeliveryBounded(steps, s, init, r);
      DeliveryProgress(r, last);
      DeliveryKeepsCalls(r, last);
    }
  }

  /** Every run of delivery steps that cannot be continued has drained both channels, so exactly the
      requests not dropped have been answered. */
  lemma DeliveryEndsQuiet(steps: seq<Step>, t: System)
    requires Reaches(steps, t)
    requires WellShaped(t) ==> forall step :: IsDelivery(step) ==> !Enabled(t, step)
    ensures Quiet(t)
    ensures forall k :: 0 <= k < |t.sent| ==> (HasFired(t, t.sent[k]) <==> k !in t.dropped)
  {
    hide Reaches, Inv, Quiet, Enabled, IsDelivery;
    RunInv(steps, t);
    if !Quiet(t) {
      var step := DeliveryNotStuck(t);
    }
    QuietComplete(steps, t);
  }

  /** From every reachable state there is such a run in which the server's socket accepts every
      response: it answers all requests sent whose response was not dropped before. */
  lemma {:induction false} DeliveryCompletes(steps: seq<Step>, s: System) returns (more: seq<Step>, t: System)
    requires Reaches(steps, s)
    ensures AllDeliveries(more) && Reaches(steps + more, t) && Quiet(t)
    ensures t.sent == s.sent && t.issued == s.issued && t.dropped == s.dropped
    ensures forall k :: 0 <= k < |s.sent| && k !in s.dropped ==> HasFired(t, s.sent[k])
    decreases Distance(s)
  {
    hide Inv, Apply, Quiet, Distance, Reaches, Enabled, IsDelivery, HasFired;
    RunInv(steps, s);
    if Quiet(s) {
      more, t := [], s;
      assert steps + more == steps;
      QuietComplete(steps, s);
    } else {
      var step := DeliveryNotStuck(s);
      DeliveryProgress(s, step);
      var next := Apply(s, step);
      ReachesNext(steps, s, step);
      DeliveryKeepsCalls(s, step);
      var rest;
      rest, t := DeliveryCompletes(steps + [step], next);
      more := [step] + rest;
      assert steps + more == steps + [step] + rest;
    }
  }

  lemma DeliveryKeepsCalls(s: System, step: Step)
    requires WellShaped(s) && Enabled(s, step) && IsDelivery(step)
    ensures Apply(s, step).sent == s.sent && Apply(s, step).issued == s.issued
    ensures step != ServerParse(false) ==> Apply(s, step).dropped == s.dropped
  {
    hide Parse.Step;
  }
}
