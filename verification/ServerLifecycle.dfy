/** The server's bookkeeping of listeners and accepted streams, its shutdown and its lingerer, as
    a state machine driven by socket events. */
module ServerLifecycle {
  import opened Lingering

  type Listener = nat
  type Stream = nat

  /** A registered user callback, or the empty function a missing map entry yields. */
  datatype Callback = Empty | User(id: nat)

  /** A stream-established callback invoked. */
  datatype Call = Call(stream: Stream, acceptor: Listener, callback: Callback)

  /** The three maps (for listeners and streams only the keys matter), the lingerer, the callbacks
      invoked so far, whether an `n == 1` assertion has fired, and whether an empty function has
      been called, which throws. */
  datatype Server = Server(
    pending: map<Listener, Callback>,
    listeners: set<Listener>,
    streams: set<Stream>,
    lingerer: Lingerer,
    calls: seq<Call>,
    asserted: bool,
    threw: bool)
  {
    predicate AllEmpty() {
      pending == map[] && listeners == {} && streams == {}
    }

    function SignalIfEmpty(): (r: Server) {
      if AllEmpty() then this.(lingerer := lingerer.Signalled()) else this
    }
  }

  datatype Event =
    | Listen(listener: Listener, callback: nat)
    | ListenerEstablished(listener: Listener)
    | ListenerClosed(listener: Listener)
    | StreamEstablished(stream: Stream, acceptor: Listener)
    | StreamClosed(stream: Stream)
    | Linger
    | LingerWakes

  function Handle(s: Server, event: Event): (r: Server) {
    match event
    case Listen(l, callback) =>
      s.(pending := s.pending[l := User(callback)])
    case ListenerEstablished(l) =>
      s.(listeners := s.listeners + {l})
    case ListenerClosed(l) =>
      s.(pending := s.pending - {l}, listeners := s.listeners - {l},
         asserted := s.asserted || l !in s.pending || l !in s.listeners).SignalIfEmpty()
    case StreamEstablished(x, l) =>
      var pending := if l in s.pending then s.pending else s.pending[l := Empty];
      s.(pending := pending, streams := s.streams + {x},
         calls := s.calls + [Call(x, l, pending[l])], threw := s.threw || pending[l].Empty?)
    case StreamClosed(x) =>
      s.(streams := s.streams - {x}, asserted := s.asserted || x !in s.streams).SignalIfEmpty()
    case Linger =>
      s.(lingerer := Lingerer.Tested(s.AllEmpty()))
    case LingerWakes =>
      s.(lingerer := Lingerer.Tested(s.AllEmpty()))
  }

  const IDLE := Server(map[], {}, {}, Absent, [], false, false)

  // ---- What the sockets do ----

  /** The history of the sockets. `late` collects the acceptors that were already closed when one
      of their streams was established. */
  datatype History = History(
    callbacks: map<Listener, nat>,
    listenersEstablished: set<Listener>,
    listenersClosed: set<Listener>,
    streamsEstablished: set<Stream>,
    streamsClosed: set<Stream>,
    late: set<Listener>)

  const NOTHING_YET := History(map[], {}, {}, {}, {}, {})

  function Record(h: History, event: Event): (r: History) {
    match event
    case Listen(l, callback) => h.(callbacks := h.callbacks[l := callback])
    case ListenerEstablished(l) => h.(listenersEstablished := h.listenersEstablished + {l})
    case ListenerClosed(l) => h.(listenersClosed := h.listenersClosed + {l})
    case StreamEstablished(x, l) =>
      h.(streamsEstablished := h.streamsEstablished + {x},
         late := if l in h.listenersClosed then h.late + {l} else h.late)
    case StreamClosed(x) => h.(streamsClosed := h.streamsClosed + {x})
    case Linger => h
    case LingerWakes => h
  }

  /** Each listener is created, then established, then closed, at most once each; each stream is
      accepted from a listener that has been established, then closed, at most once each; there
      is one lingerer. After an exception, which nobody catches, nothing happens any more. */
  predicate Possible(h: History, s: Server, event: Event) {
    && !s.threw
    && match event
       case Listen(l, _) => l !in h.callbacks
       case ListenerEstablished(l) => l in h.callbacks && l !in h.listenersEstablished
       case ListenerClosed(l) => l in h.listenersEstablished && l !in h.listenersClosed
       case StreamEstablished(x, l) => x !in h.streamsEstablished && l in h.listenersEstablished
       case StreamClosed(x) => x in h.streamsEstablished && x !in h.streamsClosed
       case Linger => s.lingerer == Absent
       case LingerWakes => s.lingerer == Woken
  }

  /** The events lead from an idle server and no history to `s` and `h`. */
  ghost predicate Reaches(events: seq<Event>, s: Server, h: History) {
    if events == [] then s == IDLE && h == NOTHING_YET
    else
      var last := events[|events| - 1];
      exists s0, h0 :: Reaches(events[..|events| - 1], s0, h0) && Possible(h0, s0, last)
                       && s == Handle(s0, last) && h == Record(h0, last)
  }

  // ---- The invariant ----

  /** The maps hold exactly what the history leaves open, plus entries revived by late streams. */
  predicate Maps(s: Server, h: History) {
    && h.late <= h.listenersClosed <= h.listenersEstablished <= h.callbacks.Keys
    && h.streamsClosed <= h.streamsEstablished
    && s.pending.Keys == (h.callbacks.Keys - h.listenersClosed) + h.late
    && s.listeners == h.listenersEstablished - h.listenersClosed
    && s.streams == h.streamsEstablished - h.streamsClosed
  }

  /** An exception is the end of a run whose last stream is late and still open. */
  predicate Thrown(s: Server, h: History) {
    && (s.threw <==> h.late != {})
    && (s.threw ==> s.streams != {})
  }

  /** An entry has the callback given to `listen`, or none if a late stream revived it. */
  predicate Registered(s: Server, h: History) {
    && s.pending.Keys <= h.callbacks.Keys
    && forall l :: l in s.pending ==>
         s.pending[l] == if l in h.late then Empty else User(h.callbacks[l])
  }

  predicate Inv(s: Server, h: History) {
    && Maps(s, h) && Registered(s, h) && Thrown(s, h) && !s.asserted
    && (s.lingerer == Asleep ==> !s.AllEmpty())
  }

  lemma EventKeepsMaps(s: Server, h: History, event: Event)
    requires Inv(s, h) && Possible(h, s, event)
    ensures Maps(Handle(s, event), Record(h, event))
  {
    hide Registered;
  }

  lemma EventKeepsRegistered(s: Server, h: History, event: Event)
    requires Inv(s, h) && Possible(h, s, event)
    ensures Registered(Handle(s, event), Record(h, event)) && !Handle(s, event).asserted
  {
  }

  lemma EventKeepsThrown(s: Server, h: History, event: Event)
    requires Inv(s, h) && Possible(h, s, event)
    ensures Thrown(Handle(s, event), Record(h, event))
  {
    if event.StreamEstablished? {
      assert event.stream in Handle(s, event).streams;
    }
  }

  lemma EventKeepsLingerer(s: Server, h: History, event: Event)
    requires Inv(s, h) && Possible(h, s, event)
    ensures Handle(s, event).lingerer == Asleep ==> !Handle(s, event).AllEmpty()
  {
    hide Registered, Maps;
  }

  lemma {:induction false} RunInv(events: seq<Event>, s: Server, h: History)
    requires Reaches(events, s, h)
    ensures Inv(s, h)
  {
    hide Maps, Registered, Thrown, Handle, Record, Possible;
    if events == [] {
      IdleInv();
    } else {
      var init, last := events[..|events| - 1], events[|events| - 1];
      var s0, h0 :| Reaches(init, s0, h0) && Possible(h0, s0, last)
                    && s == Handle(s0, last) && h == Record(h0, last);
      RunInv(init, s0, h0);
      EventKeepsMaps(s0, h0, last);
      EventKeepsRegistered(s0, h0, last);
      EventKeepsThrown(s0, h0, last);
      EventKeepsLingerer(s0, h0, last);
    }
  }

  lemma IdleInv()
    ensures Inv(IDLE, NOTHING_YET)
  {
  }

  // ---- What every run guarantees ----

  /** In every run, no `n == 1` assertion fires: whatever closes next is in the maps it is erased from.
      An established listener always has its entry in the pending map, and nobody sleeps in `linger`
      once all maps are empty. */
  lemma RunSafe(events: seq<Event>, s: Server, h: History)
    requires Reaches(events, s, h)
    ensures !s.asserted && s.listeners <= s.pending.Keys
    ensures forall l :: Possible(h, s, ListenerClosed(l)) ==> l in s.pending && l in s.listeners
    ensures forall x :: Possible(h, s, StreamClosed(x)) ==> x in s.streams
    ensures s.AllEmpty() ==> s.lingerer != Asleep
  {
    RunInv(events, s, h);
  }

  predicate IsTest(event: Event) {
    event.Linger? || event.LingerWakes?
  }

  lemma ReturnsWhenEmpty(s: Server, h: History, event: Event)
    requires Possible(h, s, event) && Handle(s, event).lingerer == Returned != s.lingerer
    ensures IsTest(event) && s.AllEmpty()
  {
  }

  /** When `linger` has returned, there was a moment, namely its last test, at which all three maps
      were empty. */
  lemma {:induction false} LingerReturnedEmpty(events: seq<Event>, s: Server, h: History)
    returns (k: nat, s0: Server, h0: History)
    requires Reaches(events, s, h) && s.lingerer == Returned
    ensures k < |events| && IsTest(events[k]) && Reaches(events[..k], s0, h0) && s0.AllEmpty()
  {
    hide Record, Handle, Possible, Server.AllEmpty, IsTest;
    var init, last := events[..|events| - 1], events[|events| - 1];
    s0, h0 :| Reaches(init, s0, h0) && Possible(h0, s0, last)
              && s == Handle(s0, last) && h == Record(h0, last);
    hide Reaches;
    if s0.lingerer == Returned {
      k, s0, h0 := LingerReturnedEmpty(init, s0, h0);
      assert init[..k] == events[..k];
    } else {
      ReturnsWhenEmpty(s0, h0, last);
      k := |events| - 1;
    }
  }

  /** A stream's callback is the one its listener was registered with exactly when the listener is
      still open; otherwise the empty function is invoked. */
  lemma AcceptCallback(events: seq<Event>, s: Server, h: History, x: Stream, l: Listener)
    requires Reaches(events, s, h) && Possible(h, s, StreamEstablished(x, l))
    ensures l in h.callbacks
    ensures
      var calls := Handle(s, StreamEstablished(x, l)).calls;
      && calls[..|s.calls|] == s.calls && |calls| == |s.calls| + 1
      && calls[|s.calls|] == Call(x, l, if l in h.listenersClosed then Empty else User(h.callbacks[l]))
  {
    RunInv(events, s, h);
  }

  /** Everything that was ever opened has been closed. */
  predicate AllClosed(h: History) {
    h.listenersClosed == h.callbacks.Keys && h.streamsClosed == h.streamsEstablished
  }

  lemma NothingLeft(all: set<nat>, gone: set<nat>)
    requires gone <= all && all - gone == {}
    ensures gone == all
  {
    assert forall x :: x in all && x !in gone ==> x in all - gone;
  }

  /** In every run, all maps are empty, so that `linger` can return, exactly when every listener and
      stream has closed. */
  lemma DrainedIffAllClosed(events: seq<Event>, s: Server, h: History)
    requires Reaches(events, s, h)
    ensures s.AllEmpty() <==> AllClosed(h)
  {
    hide Reaches, Registered;
    RunInv(events, s, h);
    if s.AllEmpty() {
      assert s.pending.Keys == {};
      NothingLeft(h.callbacks.Keys, h.listenersClosed);
      NothingLeft(h.streamsEstablished, h.streamsClosed);
    }
    if AllClosed(h) {
      assert s.streams == {};
      assert s.pending.Keys == {} && s.listeners == {};
    }
  }

  /** A test in `linger` returns exactly when everything that was opened has closed, and sleeps
      otherwise. */
  lemma LingerOutcome(events: seq<Event>, s: Server, h: History, event: Event)
    requires Reaches(events, s, h) && Possible(h, s, event) && IsTest(event)
    ensures Handle(s, event).lingerer == if AllClosed(h) then Returned else Asleep
  {
    hide Reaches, AllClosed, Server.AllEmpty;
    DrainedIffAllClosed(events, s, h);
  }

  /** A sleeping lingerer is woken by exactly the event after which everything has closed; one that
      does not sleep notices nothing. */
  lemma WokenIffAllClosed(events: seq<Event>, s: Server, h: History, event: Event)
    requires Reaches(events, s, h) && Possible(h, s, event) && !IsTest(event)
    ensures s.lingerer != Asleep ==> Handle(s, event).lingerer == s.lingerer
    ensures s.lingerer == Asleep ==> (Handle(s, event).lingerer == Woken <==> AllClosed(Record(h, event)))
  {
    hide Reaches, Registered, Thrown, AllClosed;
    RunInv(events, s, h);
    Extend(events, s, h, event);
    DrainedIffAllClosed(events + [event], Handle(s, event), Record(h, event));
    WakeEffect(s, event);
    hide Maps, Possible, Handle, Record;
    if s.lingerer == Asleep && !IsClose(event) {
      StillOpen(s, event);
    }
  }

  lemma WakeEffect(s: Server, event: Event)
    requires !IsTest(event)
    ensures s.lingerer != Asleep ==> Handle(s, event).lingerer == s.lingerer
    ensures s.lingerer == Asleep ==>
      (Handle(s, event).lingerer == Woken <==> IsClose(event) && Handle(s, event).AllEmpty())
  {
  }

  /** Only a close can leave nothing open where something was. */
  lemma StillOpen(s: Server, event: Event)
    requires !s.AllEmpty() && !IsTest(event) && !IsClose(event)
    ensures !Handle(s, event).AllEmpty()
  {
    if event.StreamEstablished? {
      assert event.stream in Handle(s, event).streams;
    } else if event.Listen? {
      assert event.listener in Handle(s, event).pending;
    } else {
      assert event.listener in Handle(s, event).listeners;
    }
  }

  /** A run in which the lingerer sleeps, is woken by the last close, and returns. */
  lemma LingerExample() returns (s: Server, h: History)
    ensures Reaches([Listen(7, 1), ListenerEstablished(7), Linger, ListenerClosed(7), LingerWakes], s, h)
    ensures s.lingerer == Returned
  {
    hide Reaches;
    s, h := ListenerComes();
    Extend([Listen(7, 1), ListenerEstablished(7)], s, h, Linger);
    s := Handle(s, Linger);
    assert [Listen(7, 1), ListenerEstablished(7)] + [Linger] == [Listen(7, 1), ListenerEstablished(7), Linger];
    LastListenerWakes(s, h);
    var down := ListenerClosed(7);
    s, h := Handle(s, down), Record(h, down);
    var events := [Listen(7, 1), ListenerEstablished(7), Linger, down];
    assert [Listen(7, 1), ListenerEstablished(7), Linger] + [down] == events;
    Extend(events, s, h, LingerWakes);
    assert events + [LingerWakes] == [Listen(7, 1), ListenerEstablished(7), Linger, down, LingerWakes];
    s := Handle(s, LingerWakes);
  }

  lemma LastListenerWakes(s: Server, h: History)
    requires Reaches([Listen(7, 1), ListenerEstablished(7), Linger], s, h)
    requires s == IDLE.(pending := map[7 := User(1)], listeners := {7}, lingerer := Asleep)
    requires h == NOTHING_YET.(callbacks := map[7 := 1], listenersEstablished := {7})
    ensures
      var down := ListenerClosed(7);
      && Reaches([Listen(7, 1), ListenerEstablished(7), Linger] + [down], Handle(s, down), Record(h, down))
      && Handle(s, down).AllEmpty() && Handle(s, down).lingerer == Woken && !Handle(s, down).threw
  {
    hide Reaches;
    var down := ListenerClosed(7);
    Extend([Listen(7, 1), ListenerEstablished(7), Linger], s, h, down);
    assert Handle(s, down).pending == map[] && Handle(s, down).listeners == {};
  }

  /** Event `j` establishes a stream after its acceptor has closed. */
  ghost predicate LateAt(events: seq<Event>, j: nat) {
    && j < |events| && events[j].StreamEstablished?
    && ListenerClosed(events[j].acceptor) in events[..j]
  }

  /** A run throws if and only if some stream in it is established after its acceptor has closed,
      and then that is the last event of the run. The acceptor's entry has come back, with the empty
      function, and is never removed. */
  lemma ThrowsIffLate(events: seq<Event>, s: Server, h: History)
    requires Reaches(events, s, h)
    ensures s.threw <==> exists j: nat :: LateAt(events, j)
    ensures forall j: nat :: LateAt(events, j) ==>
      && j == |events| - 1 && events[j].acceptor in h.listenersClosed
      && events[j].acceptor in s.pending && s.pending[events[j].acceptor] == Empty
  {
    hide Reaches;
    LateEvents(events, s, h);
    RunInv(events, s, h);
  }

  lemma {:induction false} LateEvents(events: seq<Event>, s: Server, h: History)
    requires Reaches(events, s, h)
    ensures forall l :: ListenerClosed(l) in events <==> l in h.listenersClosed
    ensures h.late != {} <==> exists j: nat :: LateAt(events, j)
    ensures forall j: nat :: LateAt(events, j) ==> j == |events| - 1 && events[j].acceptor in h.late
  {
    hide Maps, Registered, Handle, Record;
    if events != [] {
      var init, last := events[..|events| - 1], events[|events| - 1];
      var s0, h0 :| Reaches(init, s0, h0) && Possible(h0, s0, last)
                    && s == Handle(s0, last) && h == Record(h0, last);
      hide Reaches;
      LateEvents(init, s0, h0);
      RunInv(init, s0, h0);
      LateNext(init, last);
      RecordLate(h0, last);
      assert events == init + [last];
    }
  }

  lemma RecordLate(h: History, event: Event)
    requires h.late == {}
    ensures
      var g := Record(h, event);
      && g.listenersClosed == h.listenersClosed + (if event.ListenerClosed? then {event.listener} else {})
      && g.late == if event.StreamEstablished? && event.acceptor in h.listenersClosed then {event.acceptor} else {}
  {
  }

  lemma LateNext(init: seq<Event>, last: Event)
    requires forall j: nat :: !LateAt(init, j)
    ensures
      var events := init + [last];
      && (forall j: nat :: LateAt(events, j) ==> j == |init|)
      && (LateAt(events, |init|) <==> last.StreamEstablished? && ListenerClosed(last.acceptor) in init)
  {
    var events := init + [last];
    assert events[..|init|] == init;
    forall j: nat | LateAt(events, j) ensures j == |init| {
      if j < |init| {
        assert events[..j] == init[..j];
        assert LateAt(init, j);
      }
    }
  }

  /** A run that throws: its listener has closed when the stream is established. */
  lemma LateStreamExample() returns (events: seq<Event>, s: Server, h: History)
    ensures Reaches(events, s, h) && s.threw && s.pending == map[7 := Empty]
  {
    hide Reaches;
    s, h := ListenerComesAndGoes();
    var late := StreamEstablished(3, 7);
    events := [Listen(7, 1), ListenerEstablished(7), ListenerClosed(7)];
    Extend(events, s, h, late);
    events, s, h := events + [late], Handle(s, late), Record(h, late);
  }

  lemma ListenerComesAndGoes() returns (s: Server, h: History)
    ensures Reaches([Listen(7, 1), ListenerEstablished(7), ListenerClosed(7)], s, h) && s == IDLE
    ensures h == NOTHING_YET.(callbacks := map[7 := 1], listenersEstablished := {7}, listenersClosed := {7})
  {
    hide Reaches;
    s, h := ListenerComes();
    var down := ListenerClosed(7);
    var events := [Listen(7, 1), ListenerEstablished(7)];
    Extend(events, s, h, down);
    assert events + [down] == [Listen(7, 1), ListenerEstablished(7), down];
    s, h := Handle(s, down), Record(h, down);
    assert s.pending == map[] && s.listeners == {};
  }

  lemma ListenerComes() returns (s: Server, h: History)
    ensures Reaches([Listen(7, 1), ListenerEstablished(7)], s, h)
    ensures s == IDLE.(pending := map[7 := User(1)], listeners := {7})
    ensures h == NOTHING_YET.(callbacks := map[7 := 1], listenersEstablished := {7})
  {
    assert Reaches([], IDLE, NOTHING_YET);
    hide Reaches;
    var begin, up := Listen(7, 1), ListenerEstablished(7);
    Extend([], IDLE, NOTHING_YET, begin);
    assert [] + [begin] == [begin] && [begin] + [up] == [begin, up];
    s, h := Handle(IDLE, begin), Record(NOTHING_YET, begin);
    Extend([begin], s, h, up);
    s, h := Handle(s, up), Record(h, up);
  }

  lemma Extend(events: seq<Event>, s: Server, h: History, event: Event)
    requires Reaches(events, s, h) && Possible(h, s, event)
    ensures Reaches(events + [event], Handle(s, event), Record(h, event))
  {
    hide Handle, Record, Possible;
    var all := events + [event];
    assert all[..|all| - 1] == events && all[|all| - 1] == event;
    assert Reaches(all[..|all| - 1], s, h);
  }

  // ---- The callbacks invoked ----

  /** The streams established by the events, with their acceptors, in order. */
  function Accepted(events: seq<Event>): (r: seq<(Stream, Listener)>) {
    if events == [] then []
    else
      var last := events[|events| - 1];
      Accepted(events[..|events| - 1])
      + if last.StreamEstablished? then [(last.stream, last.acceptor)] else []
  }

  /** In every run, every stream established has had one callback invoked, in the order in which the
      streams were established: the one given to `listen` for its acceptor, or, in the call that
      ends a run with an exception, the empty function. */
  lemma {:induction false} CallsInOrder(events: seq<Event>, s: Server, h: History)
    requires Reaches(events, s, h)
    ensures |s.calls| == |Accepted(events)|
    ensures forall i :: 0 <= i < |s.calls| ==>
      && (s.calls[i].stream, s.calls[i].acceptor) == Accepted(events)[i]
      && s.calls[i].acceptor in h.callbacks
      && s.calls[i].callback
         == if s.threw && i == |s.calls| - 1 then Empty else User(h.callbacks[s.calls[i].acceptor])
  {
    hide Registered, Maps, Record, Handle, Possible;
    if events != [] {
      var init, last := events[..|events| - 1], events[|events| - 1];
      var s0, h0 :| Reaches(init, s0, h0) && Possible(h0, s0, last)
                    && s == Handle(s0, last) && h == Record(h0, last);
      hide Reaches;
      CallsInOrder(init, s0, h0);
      CallEffect(init, s0, h0, last);
    }
  }

  lemma CallEffect(events: seq<Event>, s: Server, h: History, event: Event)
    requires Reaches(events, s, h) && Possible(h, s, event)
    ensures
      var t, g := Handle(s, event), Record(h, event);
      && !s.threw && h.callbacks.Keys <= g.callbacks.Keys
      && (forall l :: l in h.callbacks ==> g.callbacks[l] == h.callbacks[l])
      && if event.StreamEstablished? then
           && event.acceptor in h.callbacks
           && t.calls == s.calls + [Call(event.stream, event.acceptor,
                                         if t.threw then Empty else User(h.callbacks[event.acceptor]))]
         else t.calls == s.calls && !t.threw
  {
    hide Reaches;
    RunInv(events, s, h);
  }

  // ---- Shutdown ----

  /** The total size of the maps. */
  function Size(s: Server): (r: nat) {
    |s.pending| + |s.listeners| + |s.streams|
  }

  predicate IsClose(event: Event) {
    event.ListenerClosed? || event.StreamClosed?
  }

  /** Every close makes the maps smaller. */
  lemma CloseShrinks(events: seq<Event>, s: Server, h: History, event: Event)
    requires Reaches(events, s, h) && Possible(h, s, event) && IsClose(event)
    ensures Size(Handle(s, event)) < Size(s)
  {
    hide Reaches, Registered, Handle;
    RunInv(events, s, h);
    CloseEffect(s, event);
    if event.ListenerClosed? {
      var l := event.listener;
      assert l in s.pending && l in s.listeners;
      RemoveOne(s.listeners, l);
      RemoveKey(s.pending, l);
    } else {
      RemoveOne(s.streams, event.stream);
    }
  }

  lemma CloseEffect(s: Server, event: Event)
    requires IsClose(event)
    ensures
      var t := Handle(s, event);
      && t.pending == (if event.ListenerClosed? then s.pending - {event.listener} else s.pending)
      && t.listeners == (if event.ListenerClosed? then s.listeners - {event.listener} else s.listeners)
      && t.streams == (if event.StreamClosed? then s.streams - {event.stream} else s.streams)
      && t.threw == s.threw
  {
  }

  lemma RemoveOne(x: set<nat>, e: nat)
    requires e in x
    ensures |x - {e}| == |x| - 1
  {
  }

  lemma RemoveKey(m: map<nat, Callback>, k: nat)
    requires k in m
    ensures |m - {k}| == |m| - 1
  {
    assert (m - {k}).Keys == m.Keys - {k};
    RemoveOne(m.Keys, k);
  }

  /** Nothing in these events opens a socket. */
  predicate NothingOpens(events: seq<Event>) {
    forall i :: 0 <= i < |events| ==>
      !events[i].Listen? && !events[i].ListenerEstablished? && !events[i].StreamEstablished?
  }

  /** After a shutdown that found every listener established, once the sockets of its snapshot have
      closed, in whatever order and whatever else happens short of a socket being opened, every map
      is empty and no lingerer is left asleep. */
  lemma ShutdownDrains(events: seq<Event>, s: Server, h: History, more: seq<Event>, t: Server, g: History)
    requires Reaches(events, s, h) && h.listenersEstablished == h.callbacks.Keys
    requires Reaches(events + more, t, g) && NothingOpens(more)
    requires forall l :: l in s.listeners ==> ListenerClosed(l) in more
    requires forall x :: x in s.streams ==> StreamClosed(x) in more
    ensures t.AllEmpty() && t.lingerer != Asleep
    ensures forall event :: IsTest(event) && Possible(g, t, event) ==> Handle(t, event).lingerer == Returned
  {
    hide Reaches, Registered, Thrown;
    RunInv(events, s, h);
    RunInv(events + more, t, g);
    HistoryAfter(events, s, h, more, t, g);
    DrainedIffAllClosed(events + more, t, g);
  }

  lemma {:induction false} ReachesSame(events: seq<Event>, s: Server, h: History, t: Server, g: History)
    requires Reaches(events, s, h) && Reaches(events, t, g)
    ensures s == t && h == g
  {
    hide Handle, Record, Possible;
    if events != [] {
      var init, last := events[..|events| - 1], events[|events| - 1];
      var s0, h0 :| Reaches(init, s0, h0) && Possible(h0, s0, last)
                    && s == Handle(s0, last) && h == Record(h0, last);
      var t0, g0 :| Reaches(init, t0, g0) && Possible(g0, t0, last)
                    && t == Handle(t0, last) && g == Record(g0, last);
      ReachesSame(init, s0, h0, t0, g0);
    }
  }

  lemma RecordClose(h: History, event: Event)
    requires NothingOpens([event])
    ensures
      var g := Record(h, event);
      && g.callbacks == h.callbacks && g.listenersEstablished == h.listenersEstablished
      && g.streamsEstablished == h.streamsEstablished
      && g.listenersClosed == h.listenersClosed + (if event.ListenerClosed? then {event.listener} else {})
      && g.streamsClosed == h.streamsClosed + if event.StreamClosed? then {event.stream} else {}
  {
    assert [event][0] == event;
  }

  lemma MoreClosed(init: seq<Event>, last: Event, h: History, g: History)
    requires forall l :: ListenerClosed(l) in init ==> l in h.listenersClosed
    requires forall x :: StreamClosed(x) in init ==> x in h.streamsClosed
    requires g.listenersClosed == h.listenersClosed + (if last.ListenerClosed? then {last.listener} else {})
    requires g.streamsClosed == h.streamsClosed + if last.StreamClosed? then {last.stream} else {}
    ensures forall l :: ListenerClosed(l) in init + [last] ==> l in g.listenersClosed
    ensures forall x :: StreamClosed(x) in init + [last] ==> x in g.streamsClosed
  {
  }

  lemma LastEvent(events: seq<Event>, init: seq<Event>, last: Event, t: Server, g: History)
    returns (t0: Server, g0: History)
    requires Reaches(events + (init + [last]), t, g)
    ensures Reaches(events + init, t0, g0) && Possible(g0, t0, last)
    ensures t == Handle(t0, last) && g == Record(g0, last)
  {
    hide Handle, Possible, Record;
    var all := events + (init + [last]);
    assert all[..|all| - 1] == events + init && all[|all| - 1] == last;
    t0, g0 :| Reaches(events + init, t0, g0) && Possible(g0, t0, last)
              && t == Handle(t0, last) && g == Record(g0, last);
  }

  lemma {:induction false} HistoryAfter(events: seq<Event>, s: Server, h: History,
                                        more: seq<Event>, t: Server, g: History)
    requires Reaches(events, s, h) && Reaches(events + more, t, g) && NothingOpens(more)
    ensures g.callbacks == h.callbacks && g.listenersEstablished == h.listenersEstablished
    ensures g.streamsEstablished == h.streamsEstablished
    ensures h.listenersClosed <= g.listenersClosed && h.streamsClosed <= g.streamsClosed
    ensures forall l :: ListenerClosed(l) in more ==> l in g.listenersClosed
    ensures forall x :: StreamClosed(x) in more ==> x in g.streamsClosed
    decreases |more|
  {
    hide Handle, Possible, Record, Reaches;
    if more == [] {
      assert events + more == events;
      ReachesSame(events, s, h, t, g);
    } else {
      var init, last := more[..|more| - 1], more[|more| - 1];
      assert more == init + [last];
      var t0, g0 := LastEvent(events, init, last, t, g);
      HistoryAfter(events, s, h, init, t0, g0);
      RecordClose(g0, last);
      MoreClosed(init, last, g0, g);
    }
  }

  /** Such closes are always possible: unless the run has thrown, the sockets of the snapshot can be
      closed one by one. */
  lemma {:induction false} SnapshotCloses(events: seq<Event>, s: Server, h: History)
    returns (closes: seq<Event>, t: Server, g: History)
    requires Reaches(events, s, h) && !s.threw
    ensures forall i :: 0 <= i < |closes| ==> IsClose(closes[i])
    ensures |closes| == |s.listeners| + |s.streams|
    ensures Reaches(events + closes, t, g) && t.listeners == {} && t.streams == {}
    decreases |s.listeners| + |s.streams|
  {
    hide Reaches, Handle, Record, Possible, Registered;
    RunInv(events, s, h);
    if s.listeners == {} && s.streams == {} {
      closes, t, g := [], s, h;
      assert events + closes == events;
    } else {
      var event := NextClose(s, h);
      Extend(events, s, h, event);
      var rest;
      rest, t, g := SnapshotCloses(events + [event], Handle(s, event), Record(h, event));
      closes := [event] + rest;
      assert events + closes == events + [event] + rest;
    }
  }

  lemma NextClose(s: Server, h: History) returns (event: Event)
    requires Inv(s, h) && !s.threw && (s.listeners != {} || s.streams != {})
    ensures IsClose(event) && Possible(h, s, event) && !Handle(s, event).threw
    ensures |Handle(s, event).listeners| + |Handle(s, event).streams| == |s.listeners| + |s.streams| - 1
  {
    hide Handle, Registered, Thrown;
    if s.listeners != {} {
      var l :| l in s.listeners;
      event := ListenerClosed(l);
      RemoveOne(s.listeners, l);
    } else {
      var x :| x in s.streams;
      event := StreamClosed(x);
      RemoveOne(s.streams, x);
    }
    CloseEffect(s, event);
  }

  // ---- The server object ----

  class ServerObject {
    var pendingConnections: map<Listener, Callback>
    var listenerSockets: set<Listener>
    var streamSockets: set<Stream>
    var lingerer: Lingerer
    var calls: seq<Call>
    var asserted: bool
    var threw: bool

    ghost function View(): (s: Server)
      reads this
    {
      Server(pendingConnections, listenerSockets, streamSockets, lingerer, calls, asserted, threw)
    }

    constructor ()
      ensures View() == IDLE
    {
      pendingConnections, listenerSockets, streamSockets := map[], {}, {};
      lingerer, calls, asserted, threw := Absent, [], false, false;
    }

    method SignalIfEmpty()
      modifies this`lingerer
      ensures View() == old(View()).SignalIfEmpty()
    {
      if pendingConnections == map[] && listenerSockets == {} && streamSockets == {} {
        lingerer := lingerer.Signalled();
      }
    }

    method DoListen(listener: Listener, callback: nat)
      modifies this
      ensures View() == Handle(old(View()), Listen(listener, callback))
    {
      pendingConnections := pendingConnections[listener := User(callback)];
    }

    method ProcessListenerSocketEstablished(listener: Listener)
      modifies this
      ensures View() == Handle(old(View()), ListenerEstablished(listener))
    {
      listenerSockets := listenerSockets + {listener};
    }

    method ProcessListenerSocketClosed(listener: Listener)
      modifies this
      ensures View() == Handle(old(View()), ListenerClosed(listener))
    {
      if listener !in pendingConnections {
        asserted := true;
      }
      pendingConnections := pendingConnections - {listener};
      if listener !in listenerSockets {
        asserted := true;
      }
      listenerSockets := listenerSockets - {listener};
      SignalIfEmpty();
    }

    method ProcessStreamSocketEstablished(stream: Stream, acceptor: Listener)
      modifies this
      ensures View() == Handle(old(View()), StreamEstablished(stream, acceptor))
    {
      if acceptor !in pendingConnections {
        pendingConnections := pendingConnections[acceptor := Empty];
      }
      var callback := pendingConnections[acceptor];
      streamSockets := streamSockets + {stream};
      calls := calls + [Call(stream, acceptor, callback)];
      if callback.Empty? {
        threw := true;
      }
    }

    method ProcessStreamSocketClosed(stream: Stream)
      modifies this
      ensures View() == Handle(old(View()), StreamClosed(stream))
    {
      if stream !in streamSockets {
        asserted := true;
      }
      streamSockets := streamSockets - {stream};
      SignalIfEmpty();
    }

    /** The test at the head of the waiting loop, made on entry and after every wake-up. */
    method LingerTest() returns (returned: bool)
      modifies this`lingerer
      ensures View() == Handle(old(View()), Linger) == Handle(old(View()), LingerWakes)
      ensures returned <==> old(View()).AllEmpty()
    {
      if pendingConnections != map[] || listenerSockets != {} || streamSockets != {} {
        lingerer := Asleep;
        return false;
      }
      lingerer := Returned;
      return true;
    }

    /** The sockets a shutdown closes: those in the maps at that moment. */
    method Shutdown() returns (listeners: set<Listener>, streams: set<Stream>)
      ensures listeners == listenerSockets && streams == streamSockets
    {
      listeners, streams := listenerSockets, streamSockets;
    }
  }
}
