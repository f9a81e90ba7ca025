/** The resumable message parser over a stream socket's read queue. */
module Parser {
  import opened Errors
  import opened Bytes
  import opened Wire

  const READ_QUEUE_LOW_WATERMARK: nat := 1
  const WRITE_QUEUE_HIGH_WATERMARK: nat := 67108864

  /** The part of a stream socket the protocol uses. */
  class StreamSocket {
    var readQueue: seq<Octet>
    var writeQueue: seq<Octet>
    var lowWatermark: nat
    var canSend: bool
    var canReceive: bool
    var peerSending: bool

    constructor ()
      ensures readQueue == [] && writeQueue == [] && canSend && canReceive && peerSending
      ensures lowWatermark == 1
    {
      readQueue, writeQueue, lowWatermark := [], [], READ_QUEUE_LOW_WATERMARK;
      canSend, canReceive, peerSending := true, true, true;
    }

    /** Receives exactly `n` bytes, or none. */
    method Receive(n: nat) returns (error: Error, data: seq<Octet>)
      modifies this`readQueue
      ensures error == OK <==> canReceive && |old(readQueue)| >= n && (old(readQueue) != [] || peerSending)
      ensures error == OK ==> data == old(readQueue)[..n] && readQueue == old(readQueue)[n..]
      ensures error != OK ==> readQueue == old(readQueue)
      ensures error == INVALID <==> !canReceive
      ensures error == END_OF_FILE <==> canReceive && old(readQueue) == [] && !peerSending
    {
      data := [];
      if !canReceive {
        return INVALID, data;
      }
      if readQueue == [] && !peerSending {
        return END_OF_FILE, data;
      }
      if |readQueue| >= n {
        data, readQueue := readQueue[..n], readQueue[n..];
        return OK, data;
      }
      return WOULD_BLOCK, data;
    }

    method SetReadQueueLowWatermark(size: nat)
      modifies this`lowWatermark
      ensures lowWatermark == size
    {
      lowWatermark := size;
    }

    /** Whether a send would be accepted now. */
    predicate Accepts()
      reads this
    {
      canSend && |writeQueue| < WRITE_QUEUE_HIGH_WATERMARK
    }

    /** Appends the whole blob to the outgoing bytes, or refuses it: a socket that cannot send, or
        whose write queue has reached its high watermark, takes nothing. */
    method Send(blob: seq<Octet>) returns (error: Error)
      modifies this`writeQueue
      ensures error == OK <==> old(Accepts())
      ensures error == OK <==> canSend && |old(writeQueue)| < 67108864
      ensures error == INVALID <==> !canSend
      ensures writeQueue == old(writeQueue) + if error == OK then blob else []
    {
      if !canSend {
        return INVALID;
      }
      if |writeQueue| >= WRITE_QUEUE_HIGH_WATERMARK {
        return WOULD_BLOCK;
      }
      writeQueue := writeQueue + blob;
      return OK;
    }

    /** The first `n` queued bytes leave for the network. */
    method Flush(n: nat) returns (bytes: seq<Octet>)
      requires n <= |writeQueue|
      modifies this`writeQueue
      ensures old(writeQueue) == bytes + writeQueue && |bytes| == n
    {
      bytes, writeQueue := writeQueue[..n], writeQueue[n..];
    }

    /** Bytes arrive from the peer; the session is notified when the queue has reached the low
        watermark. */
    method Arrive(bytes: seq<Octet>) returns (notify: bool)
      modifies this`readQueue
      ensures readQueue == old(readQueue) + bytes
      ensures notify <==> |readQueue| >= lowWatermark
    {
      readQueue := readQueue + bytes;
      notify := |readQueue| >= lowWatermark;
    }
  }

  datatype Phase = WANT_HEADER | WANT_PAYLOAD

  class MessageParser {
    var phase: Phase
    var message: Message

    /** The payload is empty between calls, so a frame without payload is delivered without one. */
    ghost predicate Valid()
      reads this
    {
      message.payload == [] && (phase == WANT_PAYLOAD ==> message.length > 0)
    }

    ghost function View(): (state: ParserState)
      requires Valid()
      ensures state.Valid()
      reads this
    {
      if phase == WANT_HEADER then WantHeader else WantPayload(message.id, message.length)
    }

    constructor ()
      ensures Valid() && View() == WantHeader
    {
      phase, message := WANT_HEADER, Message(0, 0, []);
    }

    /** Takes a header. A frame announcing no payload is delivered at once. */
    method TakeHeader(socket: StreamSocket, delivered: seq<Message>)
      returns (error: Error, now: seq<Message>)
      requires Valid() && phase == WANT_HEADER
      modifies this, socket`readQueue, socket`lowWatermark
      ensures Valid()
      ensures error == OK <==> socket.canReceive && |old(socket.readQueue)| >= 8
      ensures error == INVALID <==> !socket.canReceive
      ensures error == END_OF_FILE <==> socket.canReceive && old(socket.readQueue) == [] && !socket.peerSending
      ensures error == OK ==>
        Wire.Parse(View(), socket.readQueue, now)
        == Wire.Parse(WantHeader, old(socket.readQueue), delivered).Step()
      ensures error != OK ==>
        now == delivered && View() == WantHeader && socket.readQueue == old(socket.readQueue)
    {
      hide DecodeInt32;
      now := delivered;
      var data;
      error, data := socket.Receive(8);
      if error != OK {
        return;
      }
      ghost var queue := old(socket.readQueue);
      assert data[..4] == queue[..4] && data[4..8] == queue[4..8];
      message := message.(id := DecodeInt32(data[..4]), length := DecodeInt32(data[4..8]));
      if message.length > 0 {
        phase := WANT_PAYLOAD;
        socket.SetReadQueueLowWatermark(message.length);
      } else {
        now := delivered + [message];
        phase := WANT_HEADER;
        socket.SetReadQueueLowWatermark(8);
      }
    }

    /** Takes a payload and delivers its message. */
    method TakePayload(socket: StreamSocket, delivered: seq<Message>)
      returns (error: Error, now: seq<Message>)
      requires Valid() && phase == WANT_PAYLOAD
      modifies this, socket`readQueue, socket`lowWatermark
      ensures Valid()
      ensures error == OK <==> socket.canReceive && |old(socket.readQueue)| >= old(message.length)
      ensures error == INVALID <==> !socket.canReceive
      ensures error == END_OF_FILE <==> socket.canReceive && old(socket.readQueue) == [] && !socket.peerSending
      ensures error == OK ==>
        Wire.Parse(View(), socket.readQueue, now)
        == Wire.Parse(old(View()), old(socket.readQueue), delivered).Step()
      ensures error != OK ==>
        now == delivered && View() == old(View()) && socket.readQueue == old(socket.readQueue)
    {
      now := delivered;
      assert message.length > 0;
      var data;
      error, data := socket.Receive(message.length);
      if error != OK {
        return;
      }
      message := message.(payload := data);
      now := delivered + [message];
      message := Message(0, 0, []);
      phase := WANT_HEADER;
      socket.SetReadQueueLowWatermark(8);
    }

    /** Parses until the queue is too short. What is delivered, kept and left unread is exactly
        the one-shot run over the queue; on success the watermark is what the parser needs next
        and the queue is strictly shorter, so the next notification always makes progress. */
    method Parse(socket: StreamSocket) returns (error: Error, delivered: seq<Message>)
      requires Valid()
      modifies this, socket`readQueue, socket`lowWatermark
      ensures Valid()
      ensures error == if !socket.canReceive then INVALID
                       else if socket.readQueue == [] && !socket.peerSending then END_OF_FILE else OK
      ensures socket.canReceive ==>
        Wire.Parse(View(), socket.readQueue, delivered)
        == Wire.Parse(old(View()), old(socket.readQueue), []).Run()
      ensures !socket.canReceive ==>
        delivered == [] && View() == old(View()) && socket.readQueue == old(socket.readQueue)
      ensures error == OK ==> |socket.readQueue| < socket.lowWatermark == View().Needed()
    {
      hide Wire.Parse.Step;
      delivered := [];
      ghost var start := Wire.Parse(View(), socket.readQueue, []);
      while true
        invariant Valid()
        invariant socket.canReceive ==> Wire.Parse(View(), socket.readQueue, delivered).Run() == start.Run()
        invariant !socket.canReceive ==>
          delivered == [] && View() == old(View()) && socket.readQueue == old(socket.readQueue)
        decreases |socket.readQueue|
      {
        if phase == WANT_HEADER {
          error, delivered := TakeHeader(socket, delivered);
          if error != OK {
            if error == WOULD_BLOCK {
              socket.SetReadQueueLowWatermark(8);
              return OK, delivered;
            }
            return error, delivered;
          }
        }
        if phase == WANT_PAYLOAD {
          error, delivered := TakePayload(socket, delivered);
          if error != OK {
            if error == WOULD_BLOCK {
              socket.SetReadQueueLowWatermark(message.length);
              return OK, delivered;
            }
            return error, delivered;
          }
        }
      }
    }

    /** The parser waits for more bytes, and the socket will announce them in time. */
    ghost predicate Watching(socket: StreamSocket)
      requires Valid()
      reads this, socket
    {
      |socket.readQueue| < View().Needed() && socket.lowWatermark <= View().Needed()
    }

    /** Chunks arrive one after the other, and the parser is run only when the socket announces that
        its low watermark has been reached. No wake-up is missed: the result is that of parsing
        the whole stream once. */
    method ParseWhenNotified(socket: StreamSocket, chunks: seq<seq<Octet>>) returns (delivered: seq<Message>)
      requires Valid() && Watching(socket) && socket.canReceive && socket.peerSending
      modifies this, socket`readQueue, socket`lowWatermark
      ensures Valid() && Watching(socket)
      ensures Wire.Parse(View(), socket.readQueue, delivered)
           == Wire.Parse(old(View()), old(socket.readQueue), []).Arrive(Concat(chunks)).Run()
    {
      hide Wire.Parse.Run;
      delivered := [];
      ghost var start := Wire.Parse(View(), socket.readQueue, []);
      ArriveTwice(start, [], []);
      RunWaits(start);
      for i := 0 to |chunks|
        invariant Valid() && Watching(socket)
        invariant Wire.Parse(View(), socket.readQueue, delivered)
               == start.Arrive(Concat(chunks[..i])).Run()
      {
        ghost var before := Wire.Parse(View(), socket.readQueue, delivered);
        ArriveAfterRun(start, chunks, i);
        var notify := socket.Arrive(chunks[i]);
        if notify {
          RunHistory(before.Arrive(chunks[i]));
          var _, now := Parse(socket);
          delivered := delivered + now;
        } else {
          RunWaits(before.Arrive(chunks[i]));
        }
      }
      assert chunks[..|chunks|] == chunks;
    }
  }

  lemma RunWaits(p: Wire.Parse)
    requires p.state.Valid() && !p.Enabled()
    ensures p.Run() == p
  {
  }

  lemma ArriveAfterRun(start: Wire.Parse, chunks: seq<seq<Octet>>, i: nat)
    requires start.state.Valid() && i < |chunks|
    ensures start.Arrive(Concat(chunks[..i])).Run().Arrive(chunks[i]).Run()
         == start.Arrive(Concat(chunks[..i + 1])).Run()
  {
    hide Wire.Parse.Run, Wire.Parse.Arrive;
    assert chunks[..i + 1][..i] == chunks[..i];
    RunArrive(start.Arrive(Concat(chunks[..i])), chunks[i]);
    ArriveTwice(start, Concat(chunks[..i]), chunks[i]);
  }
}
