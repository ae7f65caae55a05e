/**
 Events over a byte stream: the appender's frames, the server's loop over whatever
 portions the network delivers, and the proof that they fit together.
 */
module SocketStream {
  import opened W = WireFormat
  import opened SocketBuffer

  const MAX_MESSAGE_SIZE := 8 * 1024

  // ----- What the appender sends -----

  function Frame(m: seq<Byte>): seq<Byte> {
    IntBytes(|m|) + m
  }

  /** The message buffer leaves room for the length. */
  predicate Fits(e: Event, server: Text) {
    |Message(e, server)| <= MAX_MESSAGE_SIZE - 4
  }

  /** The messages for a list of events; those that do not fit are left out. */
  function Outgoing(es: seq<Event>, server: Text): seq<seq<Byte>> {
    if es == [] then []
    else (if Fits(es[0], server) then [Message(es[0], server)] else []) + Outgoing(es[1..], server)
  }

  function Frames(ms: seq<seq<Byte>>): seq<Byte> {
    if ms == [] then [] else Frame(ms[0]) + Frames(ms[1..])
  }

  /** The bytes one append writes to the socket, if the event fits. */
  method Append(e: Event, server: Text) returns (ok: bool, bytes: seq<Byte>)
    ensures ok <==> Fits(e, server)
    ensures bytes == if ok then Frame(Message(e, server)) else []
  {
    bytes := [];
    var msgBuffer := new SocketBuffer(MAX_MESSAGE_SIZE - 4);
    ok := ConvertToBuffer(msgBuffer, e, server);
    if ok {
      bytes := MakeFrame(msgBuffer);
    }
  }

  method MakeFrame(msgBuffer: SocketBuffer) returns (bytes: seq<Byte>)
    requires msgBuffer.Valid()
    ensures bytes == Frame(msgBuffer.buffer[..msgBuffer.size])
  {
    var buffer := new SocketBuffer(4);
    var ok := buffer.AppendInt(msgBuffer.size);
    bytes := buffer.buffer[..buffer.pos] + msgBuffer.buffer[..msgBuffer.size];
  }

  // ----- What the server makes of a stream -----

  /** The loop ends at an incomplete or empty frame and at an exception. */
  function Served(s: seq<Byte>, decode: seq<Byte> -> Read<Event>): seq<Event>
    decreases |s|
  {
    if |s| < 4 then []
    else
      var n := IntOf(s[..4]);
      if n == 0 || |s| < 4 + n then []
      else match decode(s[4..4 + n])
        case Thrown => []
        case Got(e, _) => [e] + Served(s[4 + n..], decode)
  }

  lemma ServedFrame(m: seq<Byte>, e: Event, rest: seq<Byte>, decode: seq<Byte> -> Read<Event>)
    requires 0 < |m| < WORD && decode(m) == Got(e, [])
    ensures Served(Frame(m) + rest, decode) == [e] + Served(rest, decode)
  {
    FrameParts(m, rest);
  }

  lemma FrameParts(m: seq<Byte>, rest: seq<Byte>)
    requires |m| < WORD
    ensures var s := Frame(m) + rest;
            |s| >= 4 + |m| && IntOf(s[..4]) == |m| && s[4..4 + |m|] == m && s[4 + |m|..] == rest
  {
    var s, head := Frame(m) + rest, IntBytes(|m|);
    assert s == head + (m + rest);
    assert s[..4] == head;
    IntRoundTrip(|m|);
  }

  lemma ServedCutFrame(m: seq<Byte>, n: nat, decode: seq<Byte> -> Read<Event>)
    requires 0 < |m| < WORD && n < |Frame(m)|
    ensures Served(Frame(m)[..n], decode) == []
  {
    var s := Frame(m)[..n];
    if |s| >= 4 {
      assert s[..4] == IntBytes(|m|);
      IntRoundTrip(|m|);
    }
  }

  /** Each message decodes to the event at the same place. */
  ghost predicate DecodeTo(ms: seq<seq<Byte>>, es: seq<Event>, decode: seq<Byte> -> Read<Event>) {
    |ms| == |es| && forall i :: 0 <= i < |ms| ==> 0 < |ms[i]| < WORD && decode(ms[i]) == Got(es[i], [])
  }

  lemma {:induction false} ServedFrames(ms: seq<seq<Byte>>, es: seq<Event>, decode: seq<Byte> -> Read<Event>)
    requires DecodeTo(ms, es, decode)
    ensures Served(Frames(ms), decode) == es
    decreases |ms|
  {
    if ms != [] {
      ServedFrames(ms[1..], es[1..], decode);
      ServedFrame(ms[0], es[0], Frames(ms[1..]), decode);
    }
  }

  lemma {:induction false} ServedCutFrames(ms: seq<seq<Byte>>, es: seq<Event>, n: nat, decode: seq<Byte> -> Read<Event>)
    requires DecodeTo(ms, es, decode) && n <= |Frames(ms)|
    ensures Served(Frames(ms)[..n], decode) <= es
    decreases |ms|
  {
    if ms != [] {
      var frame, rest := Frame(ms[0]), Frames(ms[1..]);
      if n < |frame| {
        assert (frame + rest)[..n] == frame[..n];
        ServedCutFrame(ms[0], n, decode);
      } else {
        var m := n - |frame|;
        ServedCutFrames(ms[1..], es[1..], m, decode);
        assert (frame + rest)[..n] == frame + rest[..m];
        ServedFrame(ms[0], es[0], rest[..m], decode);
      }
    }
  }

  lemma OneMore(m: seq<Byte>, e: Event, ms: seq<seq<Byte>>, es: seq<Event>, decode: seq<Byte> -> Read<Event>)
    requires DecodeTo(ms, es, decode) && 0 < |m| < WORD && decode(m) == Got(e, [])
    ensures DecodeTo([m] + ms, [e] + es, decode)
  {
  }

  /** What should arrive. */
  function Arriving(es: seq<Event>, server: Text): seq<Event> {
    if es == [] then []
    else (if Fits(es[0], server) then [Received(es[0], server)] else []) + Arriving(es[1..], server)
  }

  lemma {:induction false} OutgoingDecode(es: seq<Event>, server: Text)
    ensures DecodeTo(Outgoing(es, server), Arriving(es, server), Decode)
  {
    if es != [] {
      var ms, rest := Outgoing(es[1..], server), Arriving(es[1..], server);
      OutgoingDecode(es[1..], server);
      if Fits(es[0], server) {
        DecodeOfMessage(es[0], server);
        OneMore(Message(es[0], server), Received(es[0], server), ms, rest, Decode);
      } else {
        assert [] + ms == ms && [] + rest == rest;
      }
    }
  }

  /** The server decodes every event that was sent, in order; and wherever the connection breaks, a prefix of
      them and no partial one. */
  lemma StreamRoundTrip(es: seq<Event>, server: Text, n: nat)
    requires n <= |Frames(Outgoing(es, server))|
    ensures Served(Frames(Outgoing(es, server)), Decode) == Arriving(es, server)
    ensures Served(Frames(Outgoing(es, server))[..n], Decode) <= Arriving(es, server)
  {
    OutgoingDecode(es, server);
    ServedFrames(Outgoing(es, server), Arriving(es, server), Decode);
    ServedCutFrames(Outgoing(es, server), Arriving(es, server), n, Decode);
  }

  // ----- The loops -----

  /** The receiving end of a connection. */
  class Socket {
    var incoming: seq<Byte>
    var isOpen: bool

    constructor (incoming: seq<Byte>)
      ensures this.incoming == incoming && isOpen
    {
      this.incoming := incoming;
      isOpen := true;
    }

    /** read(2): any non-empty portion of what there is, nothing at the end of the stream. */
    method OsRead(want: nat) returns (data: seq<Byte>)
      modifies this`incoming
      ensures data + incoming == old(incoming) && |data| <= want
      ensures data == [] <==> want == 0 || old(incoming) == []
    {
      if want == 0 || incoming == [] {
        return [];
      }
      var k: nat :| 1 <= k <= want && k <= |incoming|;
      data := incoming[..k];
      incoming := incoming[k..];
    }

    /** The buffer is filled however the bytes are portioned out, or the stream ends. */
    method ReadAll(buffer: SocketBuffer) returns (retval: nat)
      requires buffer.Valid()
      modifies this`incoming, buffer.buffer
      ensures buffer.Valid()
      ensures 0 < buffer.maxsize <= |old(incoming)| ==>
                retval == buffer.maxsize && buffer.buffer[..] == old(incoming)[..buffer.maxsize]
                && incoming == old(incoming)[buffer.maxsize..]
      ensures buffer.maxsize == 0 || buffer.maxsize > |old(incoming)| ==> retval == 0
    {
      var readbytes: nat := 0;
      ghost var all := incoming;
      while true
        invariant buffer.Valid() && readbytes <= buffer.maxsize && (readbytes == 0 || readbytes < buffer.maxsize)
        invariant readbytes <= |all| && buffer.buffer[..readbytes] == all[..readbytes] && incoming == all[readbytes..]
        decreases |incoming|
      {
        var data := OsRead(buffer.maxsize - readbytes);
        if data == [] {
          return 0;
        }
        Arrived(all, readbytes, data, incoming);
        forall i | readbytes <= i < readbytes + |data| { buffer.buffer[i] := data[i - readbytes]; }
        assert buffer.buffer[..readbytes + |data|] == all[..readbytes] + data;
        readbytes := readbytes + |data|;
        if readbytes >= buffer.maxsize {
          break;
        }
      }
      assert buffer.buffer[..readbytes] == buffer.buffer[..];
      retval := readbytes;
    }

    method ReadBuffer(buffer: SocketBuffer) returns (ok: bool)
      requires buffer.Valid()
      modifies this, buffer, buffer.buffer
      ensures buffer.Valid() && buffer.pos == old(buffer.pos)
      ensures ok <==> 0 < buffer.maxsize <= |old(incoming)|
      ensures ok ==> isOpen == old(isOpen) && incoming == old(incoming)[buffer.maxsize..]
                     && buffer.buffer[..] == old(incoming)[..buffer.maxsize]
      ensures !ok ==> !isOpen
    {
      var retval := ReadAll(buffer);
      if retval == 0 {
        isOpen := false;
      } else {
        buffer.size := retval;
      }
      ok := retval > 0;
    }
  }

  lemma Arrived(all: seq<Byte>, n: nat, data: seq<Byte>, rest: seq<Byte>)
    requires n <= |all| && data + rest == all[n..]
    ensures n + |data| <= |all| && all[..n + |data|] == all[..n] + data && rest == all[n + |data|..]
  {
    assert |data + rest| == |all| - n;
    assert all == all[..n] + (data + rest);
  }

  /** One frame; false at the end of the stream. */
  method ReadFrame(clientsock: Socket) returns (ok: bool, buffer: SocketBuffer)
    requires clientsock.isOpen
    modifies clientsock
    ensures fresh(buffer) && fresh(buffer.buffer) && buffer.Valid() && buffer.pos == 0
    ensures var s := old(clientsock.incoming);
            && (ok <==> |s| >= 4 && 0 < IntOf(s[..4]) <= |s| - 4)
            && (ok ==> buffer.Left() == s[4..4 + IntOf(s[..4])]
                       && clientsock.isOpen && clientsock.incoming == s[4 + IntOf(s[..4])..])
  {
    ghost var s := clientsock.incoming;
    buffer := new SocketBuffer(4);
    ok := clientsock.ReadBuffer(buffer);
    if !ok {
      return;
    }
    assert buffer.Left() == s[..4];
    var msgSize := buffer.ReadInt();
    assert s[..4][..4] == s[..4];
    buffer := new SocketBuffer(msgSize);
    ok := clientsock.ReadBuffer(buffer);
    assert ok ==> buffer.Left() == s[4..][..msgSize] == s[4..4 + msgSize] && s[4..][msgSize..] == s[4 + msgSize..];
  }

  /** One turn of the server's loop: the next event, if there is one. */
  method ServeOne(clientsock: Socket) returns (ok: bool, event: Event)
    requires clientsock.isOpen
    modifies clientsock
    ensures var s := old(clientsock.incoming);
            if ok then clientsock.isOpen && |clientsock.incoming| < |s|
                       && Served(s, Decode) == [event] + Served(clientsock.incoming, Decode)
            else Served(s, Decode) == []
  {
    var buffer;
    ok, buffer := ReadFrame(clientsock);
    if ok {
      ok, event := ReadFromBuffer(buffer);
    } else {
      event := Event([], 0, [], map[], [], [], [], 0, 0, [], 0, []);
    }
  }

  /** The server's loop over one connection. */
  method ServeClient(clientsock: Socket) returns (events: seq<Event>)
    requires clientsock.isOpen
    modifies clientsock
    ensures events == Served(old(clientsock.incoming), Decode)
  {
    events := [];
    ghost var all := Served(clientsock.incoming, Decode);
    while clientsock.isOpen
      invariant clientsock.isOpen && events + Served(clientsock.incoming, Decode) == all
      decreases |clientsock.incoming|
    {
      ghost var was := events;
      var ok, event := ServeOne(clientsock);
      if !ok {
        assert events + [] == events;
        return;
      }
      events := events + [event];
      assert was + ([event] + Served(clientsock.incoming, Decode)) == events + Served(clientsock.incoming, Decode);
    }
  }
}
