/** A client and a server joined by a network: every operation on the two objects, in any order and
    with any fragmentation, is a run of the protocol, so what is proved of runs holds of the
    objects. */
module Connection {
  import opened Bytes
  import opened Errors
  import opened Wire
  import opened Parser
  import opened Protocol
  import opened Endpoints

  class Connection {
    const client: ClientSocket
    const server: ServerSocket
    var up: seq<Octet>
    var down: seq<Octet>
    var calls: nat
    ghost var steps: seq<Step>
    ghost var state: System

    /** The client's part of a protocol state. */
    ghost predicate ClientMirrors(s: System)
      reads this, client, client.socket, client.parser
    {
      && client.parser.Valid() && client.socket.canReceive && client.socket.peerSending
      && s.client.state == client.parser.View() && s.client.queue == client.socket.readQueue
      && s.pending == client.pendingRequests && s.fired == client.fired
      && s.up == up + client.socket.writeQueue && |s.issued| == calls && s.unsent == {}
    }

    /** The server's part of a protocol state. */
    ghost predicate ServerMirrors(s: System)
      reads this, server.socket, server.parser
    {
      && server.parser.Valid() && server.socket.canReceive && server.socket.peerSending
      && s.server.state == server.parser.View() && s.server.queue == server.socket.readQueue
      && s.down == down + server.socket.writeQueue
    }

    /** The objects mirror a state that the protocol can reach. */
    ghost predicate Mirrors()
      reads this, client, client.socket, client.parser, server.socket, server.parser
    {
      && client.socket != server.socket && client.parser != server.parser
      && ClientMirrors(state) && ServerMirrors(state) && Reaches(steps, state)
    }

    /** Moreover neither end has been left with anything it could parse. */
    ghost predicate Valid()
      reads this, client, client.socket, client.parser, server.socket, server.parser
    {
      Mirrors() && client.parser.Watching(client.socket) && server.parser.Watching(server.socket)
    }

    constructor ()
      ensures Valid() && steps == [] && calls == 0
    {
      var clientEnd := new StreamSocket();
      var serverEnd := new StreamSocket();
      client := new ClientSocket(clientEnd);
      server := new ServerSocket(serverEnd);
      up, down, calls := [], [], 0;
      steps, state := [], START;
    }

    /** A call to `send`: an added and a transmitted request, or a failed one when the socket
        refuses it. */
    method Send(requestPayload: seq<Octet>, transactionId: Int32) returns (error: Error)
      requires Valid() && transactionId !in client.pendingRequests && |requestPayload| < 0x8000_0000
      modifies this`calls, this`steps, this`state, client`pendingRequests, client.socket`writeQueue
      ensures Valid() && calls == old(calls) + 1
      ensures
        var t := old(calls);
        steps == old(steps) + [Add(transactionId, requestPayload), if error == OK then Transmit(t) else Fail(t)]
    {
      hide Reaches, Encode;
      error := client.Send(requestPayload, calls, transactionId);
      TakeSend(transactionId, requestPayload, error == OK);
      calls := calls + 1;
    }

    /** Takes the two steps of one send. */
    ghost method TakeSend(id: Int32, payload: seq<Octet>, accepted: bool)
      requires Reaches(steps, state) && state.unsent == {}
      requires id !in state.pending && |payload| < 0x8000_0000
      modifies this`steps, this`state
      ensures Reaches(steps, state)
      ensures
        var s, t := old(state), |old(state).issued|;
        && steps == old(steps) + [Add(id, payload), if accepted then Transmit(t) else Fail(t)]
        && state.server == s.server && state.down == s.down && state.client == s.client
        && state.issued == s.issued + [Issue(id, payload)] && state.pending == s.pending[id := t]
        && state.unsent == {} && state.fired == s.fired
        && state.up == s.up + if accepted then Frame(id, payload) else []
    {
      hide Reaches, Encode, Inv, WellShaped;
      var s, t := state, |state.issued|;
      var add := Add(id, payload);
      Take(add);
      var sent := if accepted then Transmit(t) else Fail(t);
      Take(sent);
      assert old(steps) + [add] + [sent] == old(steps) + [add, sent];
    }

    /** Takes a protocol step. */
    ghost method Take(step: Step)
      requires Reaches(steps, state) && (WellShaped(state) ==> Enabled(state, step))
      modifies this`steps, this`state
      ensures WellShaped(old(state)) && Enabled(old(state), step) && state == Apply(old(state), step)
      ensures Reaches(steps, state) && steps == old(steps) + [step]
    {
      hide Reaches, Apply, Enabled, Inv;
      RunInv(steps, state);
      ShapeOf(state);
      ReachesNext(steps, state, step);
      steps, state := steps + [step], Apply(state, step);
    }

    /** Bytes leave a write queue for the network: nothing the protocol can see. */
    method FlushClient(n: nat)
      requires Valid() && n <= |client.socket.writeQueue|
      modifies this`up, client.socket`writeQueue
      ensures Valid() && steps == old(steps) && |client.socket.writeQueue| == |old(client.socket.writeQueue)| - n
    {
      hide Reaches;
      var bytes := client.socket.Flush(n);
      assert up + bytes + client.socket.writeQueue == up + (bytes + client.socket.writeQueue);
      up := up + bytes;
    }

    method FlushServer(n: nat)
      requires Valid() && n <= |server.socket.writeQueue|
      modifies this`down, server.socket`writeQueue
      ensures Valid() && steps == old(steps) && |server.socket.writeQueue| == |old(server.socket.writeQueue)| - n
    {
      hide Reaches;
      var bytes := server.socket.Flush(n);
      assert down + bytes + server.socket.writeQueue == down + (bytes + server.socket.writeQueue);
      down := down + bytes;
    }

    /** A fragment reaches the server, which is notified when its low watermark is reached. */
    method CarryToServer(n: nat)
      requires Valid() && 0 < n <= |up|
      modifies this`up, this`steps, this`state, server.parser
      modifies server.socket`readQueue, server.socket`writeQueue, server.socket`lowWatermark
      ensures Valid() && up == old(up)[n..] && old(steps) < steps
      ensures AllDeliveries(steps[|old(steps)|..])
    {
      hide Reaches;
      var notify := ArriveAtServer(n);
      if notify {
        NotifyServer();
      }
    }

    method ArriveAtServer(n: nat) returns (notify: bool)
      requires Mirrors() && 0 < n <= |up|
      modifies this`up, this`steps, this`state, server.socket`readQueue
      ensures Mirrors() && up == old(up)[n..] && steps == old(steps) + [CarryUp(n)]
      ensures notify <==> |server.socket.readQueue| >= server.socket.lowWatermark
    {
      hide Reaches, Inv, WellShaped;
      var bytes := up[..n];
      ghost var wire := state.up;
      assert wire[..n] == bytes && wire[n..] == up[n..] + client.socket.writeQueue;
      Take(CarryUp(n));
      up := up[n..];
      notify := server.socket.Arrive(bytes);
    }

    method NotifyServer()
      requires Mirrors()
      modifies this`steps, this`state, server.parser
      modifies server.socket`readQueue, server.socket`writeQueue, server.socket`lowWatermark
      ensures Mirrors() && server.parser.Watching(server.socket)
      ensures old(steps) <= steps && AllDeliveries(steps[|old(steps)|..])
    {
      hide Reaches, Inv, Wire.Parse.Run, Answers, TakenWhile, Refused;
      ghost var run := state.server.(delivered := []).Run();
      ghost var before := server.socket.writeQueue;
      assert state.server.(delivered := []) == Wire.Parse(server.parser.View(), server.socket.readQueue, []);
      ghost var accepted := server.ProcessReadQueueLowWatermark();
      TakeServer(accepted);
      assert down + before + Answers(run.delivered, accepted) == down + (before + Answers(run.delivered, accepted));
    }

    /** Takes the steps of one server notification. */
    ghost method TakeServer(accepted: seq<bool>)
      requires Reaches(steps, state) && state.server.state.Valid()
      requires |accepted| == |state.server.(delivered := []).Run().delivered|
      modifies this`steps, this`state
      ensures
        var s, run := old(state), old(state).server.(delivered := []).Run();
        state == s.(server := Wire.Parse(run.state, run.queue, s.server.delivered + run.delivered),
                    down := s.down + Answers(run.delivered, accepted),
                    dropped := s.dropped + Refused(accepted, |s.server.delivered|))
      ensures Reaches(steps, state) && old(steps) <= steps && AllDeliveries(steps[|old(steps)|..])
    {
      hide Reaches, Inv, ServerNotified, Answers, Refused, Wire.Parse.Run;
      RunInv(steps, state);
      ShapeOf(state);
      ServerRefines(state, accepted);
      var more := ServerReachable(steps, state, accepted);
      assert (steps + more)[|steps|..] == more;
      steps, state := steps + more, ServerNotified(state, accepted);
    }

    /** A fragment reaches the client, which is notified when its low watermark is reached. */
    method CarryToClient(n: nat)
      requires Valid() && 0 < n <= |down|
      modifies this`down, this`steps, this`state, client`pendingRequests, client`fired, client.parser
      modifies client.socket`readQueue, client.socket`lowWatermark
      ensures Valid() && down == old(down)[n..] && old(steps) < steps
      ensures AllDeliveries(steps[|old(steps)|..])
    {
      hide Reaches;
      var notify := ArriveAtClient(n);
      if notify {
        NotifyClient();
      }
    }

    method ArriveAtClient(n: nat) returns (notify: bool)
      requires Mirrors() && 0 < n <= |down|
      modifies this`down, this`steps, this`state, client.socket`readQueue
      ensures Mirrors() && down == old(down)[n..] && steps == old(steps) + [CarryDown(n)]
      ensures notify <==> |client.socket.readQueue| >= client.socket.lowWatermark
    {
      hide Reaches, Inv, WellShaped;
      var bytes := down[..n];
      ghost var wire := state.down;
      assert wire[..n] == bytes && wire[n..] == down[n..] + server.socket.writeQueue;
      Take(CarryDown(n));
      down := down[n..];
      notify := client.socket.Arrive(bytes);
    }

    method NotifyClient()
      requires Mirrors()
      modifies this`steps, this`state, client`pendingRequests, client`fired, client.parser
      modifies client.socket`readQueue, client.socket`lowWatermark
      ensures Mirrors() && client.parser.Watching(client.socket)
      ensures old(steps) <= steps && AllDeliveries(steps[|old(steps)|..])
    {
      hide Reaches, Inv, Wire.Parse.Run, Dispatch;
      assert state.client.(delivered := []) == Wire.Parse(client.parser.View(), client.socket.readQueue, []);
      client.ProcessReadQueueLowWatermark();
      TakeClient();
    }

    /** Takes the steps of one client notification. */
    ghost method TakeClient()
      requires Reaches(steps, state) && state.client.state.Valid()
      modifies this`steps, this`state
      ensures
        var s, run := old(state), old(state).client.(delivered := []).Run();
        var (pending, fired) := Dispatch(s.pending, s.fired, run.delivered);
        state == s.(client := Wire.Parse(run.state, run.queue, s.client.delivered + run.delivered),
                    pending := pending, fired := fired)
      ensures Reaches(steps, state) && old(steps) <= steps && AllDeliveries(steps[|old(steps)|..])
    {
      hide Reaches, Inv, ClientNotified, Dispatch, Wire.Parse.Run;
      RunInv(steps, state);
      ShapeOf(state);
      ClientRefines(state);
      var more := ClientReachable(steps, state);
      assert (steps + more)[|steps|..] == more;
      steps, state := steps + more, ClientNotified(state);
    }

    /** Nothing is queued, in the network or half parsed. */
    ghost predicate Idle()
      reads this, client.socket, client.parser, server.socket, server.parser
    {
      && up == [] && down == [] && client.socket.writeQueue == [] && server.socket.writeQueue == []
      && client.socket.readQueue == [] && server.socket.readQueue == []
      && client.parser.phase == WANT_HEADER && server.parser.phase == WANT_HEADER
    }

    /** In an idle connection, of the requests the client's socket took exactly those have had their
        callback invoked whose response the server's socket took, and the catalog holds only
        callbacks of refused requests and refused responses. */
    lemma IdleAnswered()
      requires Valid() && Idle()
      ensures WellShaped(state) && Counted(state)
      ensures forall k :: 0 <= k < |state.sent| ==>
        (HasFired(state, state.sent[k]) <==> k !in state.dropped)
      ensures forall t :: t in PlacesOf(state).Union() ==> t < |state.issued|
      ensures client.pendingRequests.Keys
           == Ids(state.issued, state.failed) + Ids(state.issued, SentAt(state, state.dropped))
    {
      hide Reaches, HasFired, WellShaped;
      QuietComplete(steps, state);
    }
  }
}
