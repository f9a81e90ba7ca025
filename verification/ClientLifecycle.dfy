/** The client's bookkeeping of connecting and established sockets, its shutdown and its lingerer,
    as a state machine driven by socket events. */
module ClientLifecycle {
  import opened Lingering

  type Socket = nat
  type Callback = nat

  /** A connect callback invoked with the client socket made for `socket`. */
  datatype Call = Call(socket: Socket, callback: Callback)

  /** The two maps (for established sockets only the keys matter), the lingerer, the callbacks
      invoked so far, and whether the lookup assertion has fired. */
  datatype Client = Client(
    pending: map<Socket, Callback>,
    streams: set<Socket>,
    lingerer: Lingerer,
    calls: seq<Call>,
    asserted: bool)
  {
    function SignalIfEmpty(): (r: Client) {
      if streams == {} then this.(lingerer := lingerer.Signalled()) else this
    }
  }

  datatype Event =
    | Connect(socket: Socket, callback: Callback)
    | Established(socket: Socket)
    | Closed(socket: Socket)
    | Linger
    | LingerWakes

  function Handle(c: Client, event: Event): (r: Client) {
    match event
    case Connect(x, callback) =>
      c.(pending := c.pending[x := callback])
    case Established(x) =>
      if x !in c.pending then c.(asserted := true)
      else c.(pending := c.pending - {x}, streams := c.streams + {x},
              calls := c.calls + [Call(x, c.pending[x])])
    case Closed(x) =>
      c.(streams := c.streams - {x}).SignalIfEmpty()
    case Linger =>
      c.(lingerer := Lingerer.Tested(c.streams == {}))
    case LingerWakes =>
      c.(lingerer := Lingerer.Tested(c.streams == {}))
  }

  const IDLE := Client(map[], {}, Absent, [], false)

  // ---- What the sockets do ----

  datatype History = History(callbacks: map<Socket, Callback>, established: set<Socket>, closed: set<Socket>)

  const NOTHING_YET := History(map[], {}, {})

  function Record(h: History, event: Event): (r: History) {
    match event
    case Connect(x, callback) => h.(callbacks := h.callbacks[x := callback])
    case Established(x) => h.(established := h.established + {x})
    case Closed(x) => h.(closed := h.closed + {x})
    case Linger => h
    case LingerWakes => h
  }

  /** Every connect makes a fresh socket; a socket is established at most once, and not after it
      has closed; it closes at most once, possibly without ever being established. */
  predicate Possible(h: History, c: Client, event: Event) {
    match event
    case Connect(x, _) => x !in h.callbacks
    case Established(x) => x in h.callbacks && x !in h.established && x !in h.closed
    case Closed(x) => x in h.callbacks && x !in h.closed
    case Linger => c.lingerer == Absent
    case LingerWakes => c.lingerer == Woken
  }

  /** The events lead from `c0` and `h0` to `c` and `h`. */
  ghost predicate Leads(c0: Client, h0: History, events: seq<Event>, c: Client, h: History) {
    if events == [] then c == c0 && h == h0
    else
      var last := events[|events| - 1];
      exists c1, h1 :: Leads(c0, h0, events[..|events| - 1], c1, h1) && Possible(h1, c1, last)
                       && c == Handle(c1, last) && h == Record(h1, last)
  }

  ghost predicate Reaches(events: seq<Event>, c: Client, h: History) {
    Leads(IDLE, NOTHING_YET, events, c, h)
  }

  // ---- The invariant ----

  predicate Maps(c: Client, h: History) {
    && h.established <= h.callbacks.Keys && h.closed <= h.callbacks.Keys
    && c.pending.Keys == h.callbacks.Keys - h.established
    && (forall x :: x in c.pending ==> c.pending[x] == h.callbacks[x])
    && c.streams == h.established - h.closed
  }

  /** Each established socket, and no other, has had its own callback invoked, once. */
  ghost predicate Calls(c: Client, h: History) {
    && (forall i :: 0 <= i < |c.calls| ==>
          c.calls[i].socket in h.established && c.calls[i].socket in h.callbacks
          && c.calls[i].callback == h.callbacks[c.calls[i].socket])
    && (forall i, j :: 0 <= i < j < |c.calls| ==> c.calls[i].socket != c.calls[j].socket)
    && (forall x :: x in h.established ==> exists i :: 0 <= i < |c.calls| && c.calls[i].socket == x)
  }

  ghost predicate Inv(c: Client, h: History) {
    && Maps(c, h) && Calls(c, h) && !c.asserted
    && (c.lingerer == Asleep ==> c.streams != {})
  }

  lemma EventKeepsMaps(c: Client, h: History, event: Event)
    requires Inv(c, h) && Possible(h, c, event)
    ensures Maps(Handle(c, event), Record(h, event)) && !Handle(c, event).asserted
    ensures Handle(c, event).lingerer == Asleep ==> Handle(c, event).streams != {}
  {
    hide Calls;
  }

  lemma EventKeepsCalls(c: Client, h: History, event: Event)
    requires Inv(c, h) && Possible(h, c, event)
    ensures Calls(Handle(c, event), Record(h, event))
  {
    var d, g := Handle(c, event), Record(h, event);
    if event.Established? {
      var x := event.socket;
      assert d.calls[|c.calls|].socket == x;
      forall y | y in g.established ensures exists i :: 0 <= i < |d.calls| && d.calls[i].socket == y {
        if y != x {
          var i :| 0 <= i < |c.calls| && c.calls[i].socket == y;
          assert d.calls[i].socket == y;
        }
      }
    }
  }

  lemma {:induction false} RunInv(c0: Client, h0: History, events: seq<Event>, c: Client, h: History)
    requires Leads(c0, h0, events, c, h) && Inv(c0, h0)
    ensures Inv(c, h)
  {
    hide Maps, Calls, Handle, Record, Possible;
    if events != [] {
      var init, last := events[..|events| - 1], events[|events| - 1];
      var c1, h1 :| Leads(c0, h0, init, c1, h1) && Possible(h1, c1, last)
                    && c == Handle(c1, last) && h == Record(h1, last);
      RunInv(c0, h0, init, c1, h1);
      EventKeepsMaps(c1, h1, last);
      EventKeepsCalls(c1, h1, last);
    }
  }

  lemma IdleInv()
    ensures Inv(IDLE, NOTHING_YET)
  {
  }

  // ---- What every run guarantees ----

  /** In every run, the two maps are disjoint, the lookup assertion never fires, and each connect
      callback is invoked at most once and only with its own socket. */
  lemma RunSafe(events: seq<Event>, c: Client, h: History)
    requires Reaches(events, c, h)
    ensures c.pending.Keys !! c.streams && !c.asserted
    ensures forall x :: Possible(h, c, Established(x)) ==> x in c.pending
    ensures forall i :: 0 <= i < |c.calls| ==>
      c.calls[i].socket in h.callbacks && c.calls[i].callback == h.callbacks[c.calls[i].socket]
    ensures forall i, j :: 0 <= i < j < |c.calls| ==> c.calls[i].socket != c.calls[j].socket
    ensures c.streams == {} ==> c.lingerer != Asleep
  {
    IdleInv();
    RunInv(IDLE, NOTHING_YET, events, c, h);
  }

  predicate IsTest(event: Event) {
    event.Linger? || event.LingerWakes?
  }

  lemma ReturnsWhenEmpty(c: Client, h: History, event: Event)
    requires Possible(h, c, event) && Handle(c, event).lingerer == Returned != c.lingerer
    ensures IsTest(event) && c.streams == {}
  {
  }

  /** When `linger` has returned, there was a moment, namely its last test, at which no established
      socket remained. */
  lemma {:induction false} LingerReturnedEmpty(events: seq<Event>, c: Client, h: History)
    returns (k: nat, c0: Client, h0: History)
    requires Reaches(events, c, h) && c.lingerer == Returned
    ensures k < |events| && IsTest(events[k]) && Reaches(events[..k], c0, h0) && c0.streams == {}
  {
    hide Record, Handle, Possible, IsTest;
    var init, last := events[..|events| - 1], events[|events| - 1];
    c0, h0 :| Reaches(init, c0, h0) && Possible(h0, c0, last)
              && c == Handle(c0, last) && h == Record(h0, last);
    hide Leads;
    if c0.lingerer == Returned {
      k, c0, h0 := LingerReturnedEmpty(init, c0, h0);
      assert init[..k] == events[..k];
    } else {
      ReturnsWhenEmpty(c0, h0, last);
      k := |events| - 1;
    }
  }

  /** Every socket that was established has closed. */
  predicate AllClosed(h: History) {
    h.established <= h.closed
  }

  /** A test in `linger` returns exactly when every established socket has closed, and sleeps
      otherwise. */
  lemma LingerOutcome(events: seq<Event>, c: Client, h: History, event: Event)
    requires Reaches(events, c, h) && Possible(h, c, event) && IsTest(event)
    ensures Handle(c, event).lingerer == if AllClosed(h) then Returned else Asleep
  {
    IdleInv();
    RunInv(IDLE, NOTHING_YET, events, c, h);
    NoneOpen(h.established, h.closed);
  }

  lemma NoneOpen(established: set<Socket>, closed: set<Socket>)
    ensures established - closed == {} <==> established <= closed
  {
    if established - closed == {} {
      assert forall x :: x in established && x !in closed ==> x in established - closed;
    }
  }

  /** A sleeping lingerer is woken by exactly the event after which every established socket has
      closed; one that does not sleep notices nothing. */
  lemma WokenIffAllClosed(events: seq<Event>, c: Client, h: History, event: Event)
    requires Reaches(events, c, h) && Possible(h, c, event) && !IsTest(event)
    ensures c.lingerer != Asleep ==> Handle(c, event).lingerer == c.lingerer
    ensures c.lingerer == Asleep ==> (Handle(c, event).lingerer == Woken <==> AllClosed(Record(h, event)))
  {
    hide Leads, Calls;
    IdleInv();
    RunInv(IDLE, NOTHING_YET, events, c, h);
    EventKeepsMaps(c, h, event);
    NoneOpen(Record(h, event).established, Record(h, event).closed);
  }

  predicate NoConnect(events: seq<Event>) {
    forall i :: 0 <= i < |events| ==> !events[i].Connect?
  }

  lemma Extend(c0: Client, h0: History, events: seq<Event>, c: Client, h: History, event: Event)
    requires Leads(c0, h0, events, c, h) && Possible(h, c, event)
    ensures Leads(c0, h0, events + [event], Handle(c, event), Record(h, event))
  {
    hide Handle, Record, Possible;
    var all := events + [event];
    assert all[..|all| - 1] == events && all[|all| - 1] == event;
    assert Leads(c0, h0, all[..|all| - 1], c, h);
  }

  lemma {:induction false} StaysEmpty(c0: Client, h0: History, events: seq<Event>, c: Client, h: History)
    requires Inv(c0, h0) && c0.streams == {} && c0.pending.Keys <= h0.closed
    requires Leads(c0, h0, events, c, h) && NoConnect(events)
    ensures Inv(c, h) && c.streams == {} && c.pending.Keys <= h.closed
  {
    hide Calls;
    if events != [] {
      var init, last := events[..|events| - 1], events[|events| - 1];
      var c1, h1 :| Leads(c0, h0, init, c1, h1) && Possible(h1, c1, last)
                    && c == Handle(c1, last) && h == Record(h1, last);
      assert !last.Connect?;
      StaysEmpty(c0, h0, init, c1, h1);
      EventKeepsMaps(c1, h1, last);
      EventKeepsCalls(c1, h1, last);
    }
  }

  /** When `linger` has returned, sockets stay gone for good, whatever happens short of a new
      connect, exactly when every socket still connecting has already closed: `linger` does not
      wait for pending connections. */
  lemma LingerFinalIffNonePending(before: seq<Event>, c: Client, h: History)
    requires Reaches(before, c, h) && c.streams == {}
    ensures (forall events, c', h' :: NoConnect(events) && Leads(c, h, events, c', h') ==> c'.streams == {})
       <==> c.pending.Keys <= h.closed
  {
    IdleInv();
    RunInv(IDLE, NOTHING_YET, before, c, h);
    if c.pending.Keys <= h.closed {
      forall events, c', h' | NoConnect(events) && Leads(c, h, events, c', h')
        ensures c'.streams == {}
      {
        StaysEmpty(c, h, events, c', h');
      }
    } else {
      var x :| x in c.pending && x !in h.closed;
      var event := Established(x);
      assert Leads(c, h, [], c, h);
      Extend(c, h, [], c, h, event);
      assert x in Handle(c, event).streams;
      assert NoConnect([] + [event]);
    }
  }

  /** A run in which `linger` returns while a connection is pending, and a socket is established
      afterwards. */
  lemma PendingOutlivesLinger() returns (c: Client, h: History)
    ensures Reaches([Connect(4, 1), Linger, Established(4)], c, h)
    ensures c.lingerer == Returned && c.streams == {4}
  {
    hide Leads;
    var c0, h0 := LingerReturnsEarly();
    var up := Established(4);
    Extend(IDLE, NOTHING_YET, [Connect(4, 1), Linger], c0, h0, up);
    assert [Connect(4, 1), Linger] + [up] == [Connect(4, 1), Linger, up];
    c, h := Handle(c0, up), Record(h0, up);
  }

  lemma LingerReturnsEarly() returns (c: Client, h: History)
    ensures Reaches([Connect(4, 1), Linger], c, h)
    ensures c == IDLE.(pending := map[4 := 1], lingerer := Returned)
    ensures h == NOTHING_YET.(callbacks := map[4 := 1])
  {
    assert Leads(IDLE, NOTHING_YET, [], IDLE, NOTHING_YET);
    hide Leads;
    var connect := Connect(4, 1);
    Extend(IDLE, NOTHING_YET, [], IDLE, NOTHING_YET, connect);
    assert [] + [connect] == [connect];
    c, h := Handle(IDLE, connect), Record(NOTHING_YET, connect);
    Extend(IDLE, NOTHING_YET, [connect], c, h, Linger);
    assert [connect] + [Linger] == [connect, Linger];
    c := Handle(c, Linger);
  }

  // ---- The client object ----

  class ClientObject {
    var pendingConnections: map<Socket, Callback>
    var streamSockets: set<Socket>
    var lingerer: Lingerer
    var calls: seq<Call>
    var asserted: bool

    ghost function View(): (c: Client)
      reads this
    {
      Client(pendingConnections, streamSockets, lingerer, calls, asserted)
    }

    constructor ()
      ensures View() == IDLE
    {
      pendingConnections, streamSockets, lingerer, calls, asserted := map[], {}, Absent, [], false;
    }

    method DoConnect(socket: Socket, callback: Callback)
      modifies this
      ensures View() == Handle(old(View()), Connect(socket, callback))
    {
      pendingConnections := pendingConnections[socket := callback];
    }

    method ProcessStreamSocketEstablished(socket: Socket)
      modifies this
      ensures View() == Handle(old(View()), Established(socket))
    {
      if socket !in pendingConnections {
        asserted := true;
        return;
      }
      var callback := pendingConnections[socket];
      pendingConnections := pendingConnections - {socket};
      streamSockets := streamSockets + {socket};
      calls := calls + [Call(socket, callback)];
    }

    method ProcessStreamSocketClosed(socket: Socket)
      modifies this
      ensures View() == Handle(old(View()), Closed(socket))
    {
      streamSockets := streamSockets - {socket};
      if streamSockets == {} {
        lingerer := lingerer.Signalled();
      }
    }

    /** The test at the head of the waiting loop, made on entry and after every wake-up. */
    method LingerTest() returns (returned: bool)
      modifies this`lingerer
      ensures View() == Handle(old(View()), Linger) == Handle(old(View()), LingerWakes)
      ensures returned <==> streamSockets == {}
    {
      if streamSockets != {} {
        lingerer := Asleep;
        return false;
      }
      lingerer := Returned;
      return true;
    }

    /** The sockets a shutdown closes: the established ones at that moment, not the pending. */
    method Shutdown() returns (sockets: set<Socket>)
      ensures sockets == streamSockets
    {
      sockets := streamSockets;
    }
  }
}
