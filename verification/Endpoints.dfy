/** The client and server ends of a connection as objects, and the link to the protocol's runs:
    whatever is done to the objects of a connection is a run of protocol steps. */
module Endpoints {
  import opened Bytes
  import opened Errors
  import opened Wire
  import opened Protocol
  import opened Parser

  // ---- The server end ----

  class ServerSocket {
    const socket: StreamSocket
    const parser: MessageParser

    constructor (socket: StreamSocket)
      ensures this.socket == socket && fresh(parser)
      ensures parser.Valid() && parser.View() == WantHeader
    {
      this.socket := socket;
      parser := new MessageParser();
    }

    /** Writes the response, or loses it when the socket refuses it. */
    method ProcessRequest(request: Message)
      modifies socket`writeQueue
      ensures socket.writeQueue
           == old(socket.writeQueue) + if old(socket.Accepts()) then Encode(Respond(request)) else []
      ensures
        var response := Respond(request);
        && Encode(response) == EncodeHeader(request.id, request.length) + response.payload
        && InUpperCase(request.payload, response.payload)
    {
      UpperIsUpperCase(request.payload);
      hide InUpperCase;
      var response := Message(request.id, request.length, Upper(request.payload));
      var responseBlob := EncodeHeader(response.id, response.length) + response.payload;
      var _ := socket.Send(responseBlob);
    }

    /** Answers, in order, every request that can be parsed. `accepted` tells which responses the
        socket took. */
    method ProcessReadQueueLowWatermark() returns (ghost accepted: seq<bool>)
      requires parser.Valid()
      modifies parser, socket`readQueue, socket`writeQueue, socket`lowWatermark
      ensures parser.Valid()
      ensures socket.canReceive && socket.peerSending ==> parser.Watching(socket)
      ensures
        var run := Wire.Parse(old(parser.View()), old(socket.readQueue), []).Run();
        if socket.canReceive then
          && parser.View() == run.state && socket.readQueue == run.queue
          && |accepted| == |run.delivered|
          && socket.writeQueue == old(socket.writeQueue) + Answers(run.delivered, accepted)
          && TakenWhile(socket.canSend, |old(socket.writeQueue)|, run.delivered, accepted)
        else
          && parser.View() == old(parser.View()) && socket.readQueue == old(socket.readQueue)
          && socket.writeQueue == old(socket.writeQueue)
    {
      hide Answers, TakenWhile, Wire.Parse.Run;
      var _, requests := parser.Parse(socket);
      if socket.canReceive {
        accepted := AnswerAll(requests);
      } else {
        accepted := [];
      }
    }

    method AnswerAll(requests: seq<Message>) returns (ghost accepted: seq<bool>)
      modifies socket`writeQueue
      ensures |accepted| == |requests|
      ensures socket.writeQueue == old(socket.writeQueue) + Answers(requests, accepted)
      ensures TakenWhile(socket.canSend, |old(socket.writeQueue)|, requests, accepted)
    {
      hide Answers, Encode, Respond, InUpperCase, EncodeHeader;
      accepted := [];
      AnswersNone();
      assert requests[..0] == [];
      for i := 0 to |requests|
        invariant |accepted| == i
        invariant socket.writeQueue == old(socket.writeQueue) + Answers(requests[..i], accepted)
        invariant TakenWhile(socket.canSend, |old(socket.writeQueue)|, requests[..i], accepted)
      {
        ghost var ok := socket.Accepts();
        ghost var before := accepted;
        ProcessRequest(requests[i]);
        accepted := accepted + [ok];
        AnswersSnoc(requests[..i], before, requests[i], ok);
        assert requests[..i] + [requests[i]] == requests[..i + 1];
        TakenNext(socket.canSend, |old(socket.writeQueue)|, requests[..i], before, requests[i], ok);
      }
      assert requests[..|requests|] == requests;
    }
  }

  /** The bytes of the responses that were accepted, in order. */
  function Answers(requests: seq<Message>, accepted: seq<bool>): (bytes: seq<Octet>)
    requires |accepted| == |requests|
  {
    if requests == [] then []
    else (if accepted[0] then Encode(Respond(requests[0])) else []) + Answers(requests[1..], accepted[1..])
  }

  /** A response is accepted exactly when the socket can send and the bytes queued before it, the
      earlier responses included, have not reached the high watermark. */
  ghost predicate TakenWhile(canSend: bool, queued: nat, requests: seq<Message>, accepted: seq<bool>)
    requires |accepted| == |requests|
  {
    forall i :: 0 <= i < |accepted| ==>
      (accepted[i] <==>
       canSend && queued + |Answers(requests[..i], accepted[..i])| < WRITE_QUEUE_HIGH_WATERMARK)
  }

  lemma AnswersNone()
    ensures Answers([], []) == []
  {
  }

  lemma {:induction false} AnswersSnoc(requests: seq<Message>, accepted: seq<bool>, m: Message, ok: bool)
    requires |accepted| == |requests|
    ensures Answers(requests + [m], accepted + [ok])
         == Answers(requests, accepted) + if ok then Encode(Respond(m)) else []
  {
    hide Encode, Respond;
    if requests == [] {
      assert [m][1..] == [] && [ok][1..] == [];
      assert requests + [m] == [m] && accepted + [ok] == [ok];
    } else {
      AnswersSnoc(requests[1..], accepted[1..], m, ok);
      assert (requests + [m])[1..] == requests[1..] + [m];
      assert (accepted + [ok])[1..] == accepted[1..] + [ok];
      Associate(if accepted[0] then Encode(Respond(requests[0])) else [],
                Answers(requests[1..], accepted[1..]), if ok then Encode(Respond(m)) else []);
    }
  }

  lemma TakenNext(canSend: bool, queued: nat, requests: seq<Message>, accepted: seq<bool>, m: Message, ok: bool)
    requires |accepted| == |requests| && TakenWhile(canSend, queued, requests, accepted)
    requires ok <==> canSend && queued + |Answers(requests, accepted)| < WRITE_QUEUE_HIGH_WATERMARK
    ensures TakenWhile(canSend, queued, requests + [m], accepted + [ok])
  {
    hide Answers;
    var ms, oks := requests + [m], accepted + [ok];
    forall i | 0 <= i < |oks|
      ensures oks[i] <==> canSend && queued + |Answers(ms[..i], oks[..i])| < WRITE_QUEUE_HIGH_WATERMARK
    {
      if i < |accepted| {
        assert ms[..i] == requests[..i] && oks[..i] == accepted[..i];
      } else {
        assert ms[..i] == requests && oks[..i] == accepted;
      }
    }
  }

  // ---- The client end ----

  /** The catalog and the callbacks invoked after a list of responses has been processed. */
  function Dispatch(pending: map<Int32, nat>, fired: seq<Fired>, responses: seq<Message>)
    : (r: (map<Int32, nat>, seq<Fired>))
    decreases |responses|
  {
    if responses == [] then (pending, fired)
    else
      var m := responses[0];
      if m.id !in pending then Dispatch(pending, fired, responses[1..])
      else Dispatch(pending - {m.id}, fired + [Fired(pending[m.id], m.payload)], responses[1..])
  }

  class ClientSocket {
    const socket: StreamSocket
    const parser: MessageParser
    var pendingRequests: map<Int32, nat>
    var fired: seq<Fired>

    constructor (socket: StreamSocket)
      ensures this.socket == socket && fresh(parser)
      ensures parser.Valid() && parser.View() == WantHeader
      ensures pendingRequests == map[] && fired == []
    {
      this.socket := socket;
      parser := new MessageParser();
      pendingRequests, fired := map[], [];
    }

    /** Sends a request. The catalog chooses an id it does not hold. When the socket refuses the
        bytes the callback stays in the catalog. */
    method Send(requestPayload: seq<Octet>, responseCallback: nat, transactionId: Int32)
      returns (error: Error)
      requires transactionId !in pendingRequests
      modifies this`pendingRequests, socket`writeQueue
      ensures pendingRequests == old(pendingRequests)[transactionId := responseCallback]
      ensures error == OK <==> old(socket.Accepts())
      ensures error == INVALID <==> !socket.canSend
      ensures socket.writeQueue
           == old(socket.writeQueue) + if error == OK then Frame(transactionId, requestPayload) else []
    {
      pendingRequests := pendingRequests[transactionId := responseCallback];
      var request := Message(transactionId, ToInt32(|requestPayload|), requestPayload);
      var requestBlob := EncodeHeader(request.id, request.length) + request.payload;
      error := socket.Send(requestBlob);
    }

    /** Removes the callback of the response from the catalog and invokes it; a response with an
        unknown id is dropped. */
    method ProcessResponse(response: Message)
      modifies this`pendingRequests, this`fired
      ensures if response.id in old(pendingRequests) then
                && pendingRequests == old(pendingRequests) - {response.id}
                && fired == old(fired) + [Fired(old(pendingRequests)[response.id], response.payload)]
              else
                pendingRequests == old(pendingRequests) && fired == old(fired)
    {
      if response.id !in pendingRequests {
        return;
      }
      var responseCallback := pendingRequests[response.id];
      pendingRequests := pendingRequests - {response.id};
      fired := fired + [Fired(responseCallback, response.payload)];
    }

    /** Dispatches, in order, every response that can be parsed. */
    method ProcessReadQueueLowWatermark()
      requires parser.Valid()
      modifies this`pendingRequests, this`fired, parser, socket`readQueue, socket`lowWatermark
      ensures parser.Valid()
      ensures socket.canReceive && socket.peerSending ==> parser.Watching(socket)
      ensures
        var run := Wire.Parse(old(parser.View()), old(socket.readQueue), []).Run();
        if socket.canReceive then
          && parser.View() == run.state && socket.readQueue == run.queue
          && (pendingRequests, fired) == Dispatch(old(pendingRequests), old(fired), run.delivered)
        else
          && parser.View() == old(parser.View()) && socket.readQueue == old(socket.readQueue)
          && pendingRequests == old(pendingRequests) && fired == old(fired)
    {
      hide Wire.Parse.Run;
      var _, responses := parser.Parse(socket);
      DispatchAll(responses);
    }

    method DispatchAll(responses: seq<Message>)
      modifies this`pendingRequests, this`fired
      ensures (pendingRequests, fired) == Dispatch(old(pendingRequests), old(fired), responses)
    {
      for i := 0 to |responses|
        invariant Dispatch(pendingRequests, fired, responses[i..])
               == Dispatch(old(pendingRequests), old(fired), responses)
      {
        assert responses[i..][1..] == responses[i + 1..];
        ProcessResponse(responses[i]);
      }
    }
  }

  // ---- A notification is a run of steps ----

  /** The protocol state after the server has taken every parser step it can, its socket accepting
      the answers as given. */
  function ServerNotified(s: System, accepted: seq<bool>): (r: System)
    requires s.server.state.Valid()
    decreases |s.server.queue|
  {
    if !s.server.Enabled() then s
    else
      var ok := accepted != [] && accepted[0];
      var next := AnswerNew(s.(server := s.server.Step()), |s.server.delivered|, ok);
      if |next.server.delivered| == |s.server.delivered| || accepted == [] then ServerNotified(next, accepted)
      else ServerNotified(next, accepted[1..])
  }

  ghost function Refused(accepted: seq<bool>, before: nat): (r: set<nat>) {
    set i | 0 <= i < |accepted| && !accepted[i] :: before + i
  }

  /** One server notification: the object's new read side is the protocol's, the bytes the object
      writes are the bytes the steps put into the network, and what its socket refuses is what the
      steps drop. */
  lemma ServerRefines(s: System, accepted: seq<bool>)
    requires s.server.state.Valid() && |accepted| == |s.server.(delivered := []).Run().delivered|
    ensures
      var run, n := s.server.(delivered := []).Run(), |s.server.delivered|;
      ServerNotified(s, accepted)
      == s.(server := Wire.Parse(run.state, run.queue, s.server.delivered + run.delivered),
            down := s.down + Answers(run.delivered, accepted),
            dropped := s.dropped + Refused(accepted, n))
  {
    hide Answers, Wire.Parse.Run, Refused;
    RunHistory(s.server);
    var run := s.server.(delivered := []).Run();
    assert (s.server.delivered + run.delivered)[|s.server.delivered|..] == run.delivered;
    ServerSteps(s, accepted);
  }

  lemma {:induction false} ServerSteps(s: System, accepted: seq<bool>)
    requires s.server.state.Valid()
    requires |accepted| == |s.server.Run().delivered| - |s.server.delivered|
    ensures
      var run, n := s.server.Run(), |s.server.delivered|;
      ServerNotified(s, accepted)
      == s.(server := run, down := s.down + Answers(run.delivered[n..], accepted),
            dropped := s.dropped + Refused(accepted, n))
    decreases |s.server.queue|
  {
    hide Encode, Wire.Parse.Step, Wire.Parse.Run, Answers, Respond, Refused, ServerNotified;
    var n, run := |s.server.delivered|, s.server.Run();
    ServerStep(s, accepted);
    if s.server.Enabled() {
      StepDelivers(s.server);
      RunConserves(s.server.Step());
      if s.server.Step().delivered == s.server.delivered {
        ServerSteps(s.(server := s.server.Step()), accepted);
      } else {
        var next := AnswerNew(s.(server := s.server.Step()), n, accepted[0]);
        ServerSteps(next, accepted[1..]);
        JoinAnswers(s.down, run.delivered, n, accepted);
        RefusedCons(accepted, n);
      }
    } else {
      assert s.server.delivered[n..] == [] && accepted == [];
      NothingAnswered(n);
      assert s.down + [] == s.down && s.dropped + {} == s.dropped;
    }
  }

  lemma ServerStep(s: System, accepted: seq<bool>)
    requires s.server.state.Valid()
    ensures !s.server.Enabled() ==> s.server.Run() == s.server && ServerNotified(s, accepted) == s
    ensures s.server.Enabled() ==>
      && s.server.Run() == s.server.Step().Run()
      && (s.server.Step().delivered == s.server.delivered ==>
            ServerNotified(s, accepted) == ServerNotified(s.(server := s.server.Step()), accepted))
      && (s.server.Step().delivered != s.server.delivered && accepted != [] ==>
            ServerNotified(s, accepted)
            == ServerNotified(AnswerNew(s.(server := s.server.Step()), |s.server.delivered|, accepted[0]),
                              accepted[1..]))
  {
    hide Wire.Parse.Step;
    if s.server.Enabled() {
      StepDelivers(s.server);
    }
  }

  lemma JoinAnswers(down: seq<Octet>, requests: seq<Message>, n: nat, accepted: seq<bool>)
    requires n < |requests| && |accepted| == |requests| - n
    ensures (if accepted[0] then down + Encode(Respond(requests[n])) else down)
            + Answers(requests[n + 1..], accepted[1..])
         == down + Answers(requests[n..], accepted)
  {
    hide Encode, Answers, Respond;
    AnswersCons(requests, n, accepted);
    Associate(down, if accepted[0] then Encode(Respond(requests[n])) else [],
              Answers(requests[n + 1..], accepted[1..]));
  }

  lemma Associate(a: seq<Octet>, b: seq<Octet>, c: seq<Octet>)
    ensures a + b + c == a + (b + c)
    ensures a + [] == a
  {
  }

  lemma NothingAnswered(n: nat)
    ensures Answers([], []) == [] && Refused([], n) == {}
  {
  }

  lemma AnswersCons(requests: seq<Message>, n: nat, accepted: seq<bool>)
    requires n < |requests| && |accepted| == |requests| - n
    ensures Answers(requests[n..], accepted)
         == (if accepted[0] then Encode(Respond(requests[n])) else [])
            + Answers(requests[n + 1..], accepted[1..])
  {
    hide Encode, Respond;
    assert requests[n..][1..] == requests[n + 1..];
  }

  lemma RefusedCons(accepted: seq<bool>, n: nat)
    requires accepted != []
    ensures Refused(accepted, n) == (if accepted[0] then {} else {n}) + Refused(accepted[1..], n + 1)
  {
    var r, q := Refused(accepted, n), (if accepted[0] then {} else {n}) + Refused(accepted[1..], n + 1);
    forall k | k in r ensures k in q {
      var i :| 0 <= i < |accepted| && !accepted[i] && k == n + i;
      if i > 0 {
        assert !accepted[1..][i - 1];
      }
    }
    forall k | k in q ensures k in r {
      if k in Refused(accepted[1..], n + 1) {
        var i :| 0 <= i < |accepted[1..]| && !accepted[1..][i] && k == n + 1 + i;
        assert !accepted[i + 1];
      }
    }
  }

  /** The protocol state after the client has taken every parser step it can. */
  function ClientNotified(s: System): (r: System)
    requires s.client.state.Valid()
    decreases |s.client.queue|
  {
    if s.client.Enabled() then ClientNotified(DispatchNew(s.(client := s.client.Step()), |s.client.delivered|))
    else s
  }

  /** One client notification: the catalog and the callbacks invoked are those of the steps. */
  lemma ClientRefines(s: System)
    requires s.client.state.Valid()
    ensures
      var run := s.client.(delivered := []).Run();
      var (pending, fired) := Dispatch(s.pending, s.fired, run.delivered);
      ClientNotified(s)
      == s.(client := Wire.Parse(run.state, run.queue, s.client.delivered + run.delivered),
            pending := pending, fired := fired)
  {
    hide Dispatch, Wire.Parse.Run;
    ClientSteps(s);
    RunHistory(s.client);
    var run := s.client.(delivered := []).Run();
    assert (s.client.delivered + run.delivered)[|s.client.delivered|..] == run.delivered;
  }

  lemma {:induction false} ClientSteps(s: System)
    requires s.client.state.Valid()
    ensures
      var run, n := s.client.Run(), |s.client.delivered|;
      && n <= |run.delivered|
      && var (pending, fired) := Dispatch(s.pending, s.fired, run.delivered[n..]);
         ClientNotified(s) == s.(client := run, pending := pending, fired := fired)
    decreases |s.client.queue|
  {
    hide Wire.Parse.Step;
    var n := |s.client.delivered|;
    if s.client.Enabled() {
      var next := DispatchNew(s.(client := s.client.Step()), n);
      StepDelivers(s.client);
      ClientSteps(next);
      RunConserves(s.client.Step());
      var run := s.client.Run();
      if next.client.delivered != s.client.delivered {
        assert run.delivered[n] == next.client.delivered[n];
        assert run.delivered[n..][1..] == run.delivered[n + 1..];
      }
    } else {
      assert s.client.delivered[n..] == [];
    }
  }

  /** A server notification is a run of enabled steps, whatever its socket accepts. */
  lemma {:induction false} ServerReachable(steps: seq<Step>, s: System, accepted: seq<bool>)
    returns (more: seq<Step>)
    requires Reaches(steps, s) && WellShaped(s)
    ensures AllDeliveries(more) && Reaches(steps + more, ServerNotified(s, accepted))
    decreases |s.server.queue|
  {
    hide Inv, Reaches, Parse.Step;
    more := [];
    assert steps + more == steps;
    if s.server.Enabled() {
      var step := ServerParse(accepted != [] && accepted[0]);
      var next := Apply(s, step);
      ReachesNext(steps, s, step);
      RunInv(steps + [step], next);
      ShapeOf(next);
      var rest := ServerReachable(steps + [step], next,
        if |next.server.delivered| == |s.server.delivered| || accepted == [] then accepted else accepted[1..]);
      more := [step] + rest;
      assert steps + more == steps + [step] + rest;
    }
  }

  /** A client notification is a run of enabled steps. */
  lemma {:induction false} ClientReachable(steps: seq<Step>, s: System) returns (more: seq<Step>)
    requires Reaches(steps, s) && WellShaped(s)
    ensures AllDeliveries(more) && Reaches(steps + more, ClientNotified(s))
    decreases |s.client.queue|
  {
    hide Inv, Reaches, Parse.Step;
    more := [];
    assert steps + more == steps;
    if s.client.Enabled() {
      var next := Apply(s, ClientParse);
      ReachesNext(steps, s, ClientParse);
      RunInv(steps + [ClientParse], next);
      ShapeOf(next);
      var rest := ClientReachable(steps + [ClientParse], next);
      more := [ClientParse] + rest;
      assert steps + more == steps + [ClientParse] + rest;
    }
  }
}
