/**
 Length-prefixed framing: the receiving half of EOClient::Tick in src/eoclient.cpp, on
 top of the receive ring.
 */
module Framing {
  import opened Bytes
  import opened Common
  import opened FrameSpec
  import opened PacketFields
  import opened Ring

  /** The payload length announced by two length bytes. */
  function FrameLength(b1: Byte, b2: Byte): nat {
    Number(b1, b2, ABSENT, ABSENT)
  }

  const LEN := (b1: Byte, b2: Byte) => FrameLength(b1, b2)

  /** A packet with the given body, headed as PacketBuilder::Get heads it. */
  function Packet(body: seq<Byte>): seq<Byte> {
    LengthBytes(|body|) + body
  }

  function LengthBytes(n: nat): (s: seq<Byte>)
    ensures |s| == 2
  {
    ENumberBytes(n % UINT)[..2]
  }

  function Stream(bodies: seq<seq<Byte>>): seq<Byte> {
    if bodies == [] then [] else Packet(bodies[0]) + Stream(bodies[1..])
  }

  /** The frames of a stream of packets are their bodies. */
  lemma {:induction false} FramesOfStream(bodies: seq<seq<Byte>>)
    requires forall i :: 0 <= i < |bodies| ==> 0 < |bodies[i]| < MAX2
    ensures Frames(Stream(bodies), LEN) == bodies && Tail(Stream(bodies), LEN) == []
  {
    if bodies != [] {
      FramesOfStream(bodies[1..]);
      FrameFirst(Packet(bodies[0]), bodies[0], Stream(bodies[1..]));
    }
  }

  lemma HeadedBy(packet: seq<Byte>, head: seq<Byte>, b: seq<Byte>)
    requires |head| == 2 && packet == head + b && ReadDigits(head) == |b|
    ensures |packet| == 2 + |b| && LEN(packet[0], packet[1]) == |b| && packet[2..] == b
  {
  }

  lemma LengthReads(n: nat)
    requires n < MAX2
    ensures ReadDigits(LengthBytes(n)) == n
  {
    SmallRemainder(n, UINT);
    SmallRemainder(n, Power(2));
    ShortFieldKeeps(n, 2);
  }

  lemma HeaderReads(packet: seq<Byte>, b: seq<Byte>)
    requires 0 < |b| < MAX2 && packet == Packet(b)
    ensures |packet| == 2 + |b| && LEN(packet[0], packet[1]) == |b| && packet[2..] == b
  {
    LengthReads(|b|);
    HeadedBy(packet, LengthBytes(|b|), b);
  }

  /** One packet in front of a stream. */
  lemma FrameFirst(packet: seq<Byte>, b: seq<Byte>, rest: seq<Byte>)
    requires 0 < |b| < MAX2 && packet == Packet(b)
    ensures Frames(packet + rest, LEN) == [b] + Frames(rest, LEN) && Tail(packet + rest, LEN) == Tail(rest, LEN)
  {
    HeaderReads(packet, b);
    assert packet == [packet[0], packet[1]] + b;
    FrameAt(packet[0], packet[1], b, rest);
  }

  lemma FrameAt(b1: Byte, b2: Byte, b: seq<Byte>, rest: seq<Byte>)
    requires |b| > 0 && LEN(b1, b2) == |b|
    ensures var s := [b1, b2] + b + rest;
      Frames(s, LEN) == [b] + Frames(rest, LEN) && Tail(s, LEN) == Tail(rest, LEN)
  {
    var s := [b1, b2] + b + rest;
    var end := 2 + |b|;
    assert s[2..end] == b && s[end..] == rest;
  }

  // -- The client ----------------------------------------------------------------------

  /** Bytes reach the socket; the server takes some of them off it; the server ticks. */
  datatype Event = Arrive(bytes: seq<Byte>) | Receive(count: nat) | TickEvent

  /** How many bytes the parser waits for behind the bytes s: one of the length, or the rest of a frame. */
  function Wanted(s: seq<Byte>): nat {
    var t := Tail(s, LEN);
    if |t| < 2 then 1 else if LEN(t[0], t[1]) + 2 <= |t| then 0 else LEN(t[0], t[1]) + 2 - |t|
  }

  lemma WantedBy(p: Parser<Byte>, executed: seq<seq<Byte>>, s: seq<Byte>)
    requires Stands(p, executed, s, LEN)
    ensures Wanted(s) == if p.state.ReadData? then p.length else 1
  {
  }

  class FrameReader {
    const ring: Receiver
    var parser: Parser<Byte>
    var executed: seq<seq<Byte>>    // the payloads given to Execute, in order
    ghost var consumed: seq<Byte>   // the bytes taken out of the ring
    ghost var received: seq<Byte>   // the bytes put into the ring

    ghost predicate Valid()
      reads this, ring, ring.buffer
    {
      && ring.Valid()
      && Stands(parser, executed, consumed, LEN)
      && received == consumed + ring.Pending()
    }

    /** Only a frame of length 0 leaves the parser waiting for nothing. */
    predicate Stuck()
      reads this
    {
      parser.state.ReadData? && parser.length == 0
    }

    constructor (size: nat)
      requires IsPowerOfTwo(size)
      ensures Valid() && fresh(ring) && fresh(ring.buffer) && ring.buffer.Length == size
      ensures received == [] && executed == []
    {
      ring := new Receiver(size);
      parser := Parser(ReadLen1, 0, 0, 0, []);
      executed, consumed, received := [], [], [];
    }

    /** One recv call of the socket. */
    method Deliver(bytes: seq<Byte>) returns (ok: bool)
      requires Valid() && |bytes| <= ring.ToRecv()
      modifies `received, ring, ring.buffer
      ensures Valid() && received == old(received) + bytes
      ensures ok <==> bytes != []
      ensures executed == old(executed)
    {
      ok := ring.DoRecv(bytes);
      received := received + bytes;
      assert consumed + old(ring.Pending()) + bytes == consumed + ring.Pending();
    }

    /** One tick without an upload: at most one frame is executed. */
    method Tick()
      requires Valid()
      modifies `parser, `executed, `consumed, ring`gpos, ring`used
      ensures Valid() && received == old(received)
      ensures consumed == received[..|old(consumed)| + Min(Wanted(old(consumed)), old(ring.used))]
      ensures !old(Stuck()) && old(ring.used) > 0 ==> ring.used < old(ring.used)
      ensures old(Stuck()) || old(ring.used) == 0 ==>
        (ring.Pending() == old(ring.Pending()) && executed == old(executed) && parser == old(parser))
    {
      WantedBy(parser, executed, consumed);
      var data := Pull();
      Consume(data);
      assert received == old(consumed) + data + ring.Pending();
    }

    /** Takes from the ring what the parser can use next. */
    method Pull() returns (data: seq<Byte>)
      requires ring.Valid()
      modifies ring`gpos, ring`used
      ensures ring.Valid() && data + ring.Pending() == old(ring.Pending())
      ensures forall c :: c + old(ring.Pending()) == c + data + ring.Pending()
      ensures |data| <= (if parser.state.ReadData? then parser.length else 1)
      ensures ring.used + |data| == old(ring.used)
      ensures |data| == Min(if parser.state.ReadData? then parser.length else 1, old(ring.used))
      ensures data == [] <==> Stuck() || old(ring.used) == 0
    {
      data := ring.Recv(if parser.state.ReadData? then parser.length else 1);
      forall c ensures c + old(ring.Pending()) == c + data + ring.Pending() {
        assert c + (data + ring.Pending()) == c + data + ring.Pending();
      }
    }

    /** The loop over the bytes taken from the ring. */
    method Consume(taken: seq<Byte>)
      requires Stands(parser, executed, consumed, LEN)
      requires |taken| <= (if parser.state.ReadData? then parser.length else 1)
      modifies `parser, `executed, `consumed
      ensures Stands(parser, executed, consumed, LEN) && consumed == old(consumed) + taken
      ensures taken == [] ==> parser == old(parser) && executed == old(executed)
    {
      var data, done := taken, false;
      while |data| > 0 && !done
        invariant data == taken || data == []
        invariant data == taken ==> parser == old(parser) && executed == old(executed) && consumed == old(consumed)
        invariant data == [] ==> Stands(parser, executed, consumed, LEN) && consumed == old(consumed) + taken
        invariant done ==> data == []
        decreases |data|
      {
        data, done := Accept(data);
      }
    }

    /** One turn of the switch. Recv gave no more than the state asked for, so no case falls through. */
    method Accept(data: seq<Byte>) returns (rest: seq<Byte>, done: bool)
      requires Stands(parser, executed, consumed, LEN)
      requires 0 < |data| <= (if parser.state.ReadData? then parser.length else 1)
      modifies `parser, `executed, `consumed
      ensures Stands(parser, executed, consumed, LEN)
      ensures consumed == old(consumed) + data && rest == []
    {
      ghost var p := parser;
      done := false;
      if parser.state.ReadLen1? {
        assert data == [data[0]];
        StandsLen1(p, executed, consumed, data[0], LEN);
        parser := parser.(raw1 := data[0], state := ReadLen2);
        rest := data[1..];
      } else if parser.state.ReadLen2? {
        assert data == [data[0]];
        StandsLen2(p, executed, consumed, data[0], LEN);
        parser := parser.(raw2 := data[0], length := LEN(parser.raw1, data[0]), state := ReadData);
        rest := data[1..];
      } else {
        var n := if |data| < parser.length then |data| else parser.length;
        parser := parser.(data := parser.data + data[..n], length := parser.length - n);
        rest := data[n..];
        assert data[..n] == data;
        if parser.length == 0 {
          StandsFrame(p, executed, consumed, data, LEN);
          executed := executed + [parser.data];
          parser := parser.(data := [], state := ReadLen1);
          done := true;
        } else {
          StandsMore(p, executed, consumed, data, LEN);
        }
      }
      consumed := consumed + data;
    }

    /** Ticks until the ring is empty or the parser waits for nothing. */
    method Drain()
      requires Valid()
      modifies `parser, `executed, `consumed, ring`gpos, ring`used
      ensures Valid()
      ensures executed == Frames(received, LEN)
    {
      while ring.used > 0 && !Stuck()
        invariant Valid() && received == old(received)
        decreases ring.used
      {
        Tick();
      }
      FramesSplit(consumed, ring.Pending(), LEN);
    }
  }

  // -- Schedules -----------------------------------------------------------------------

  /** What the socket still holds, what the server has received of it, and how much of that it has parsed. */
  datatype Flow = Flow(consumed: nat, received: seq<Byte>, socket: seq<Byte>, open: bool)

  predicate Flows(f: Flow, size: nat) {
    f.consumed <= |f.received| <= f.consumed + size
  }

  function Room(f: Flow, size: nat): nat
    requires Flows(f, size)
  {
    Min(size - (|f.received| - f.consumed), CHUNK)
  }

  /**
   One event: a recv call moves as many bytes as the socket gives, the ring takes and the socket has; it ends
   the connection when the ring is full. A tick takes as many as the parser waits for and the ring has.
   */
  function Flowed(f: Flow, size: nat, event: Event): (g: Flow)
    requires Flows(f, size)
    ensures Flows(g, size)
  {
    if !f.open then f
    else match event
      case Arrive(bytes) => f.(socket := f.socket + bytes)
      case Receive(count) =>
        if Room(f, size) == 0 then f.(open := false)
        else
          var n := Min(Min(count, Room(f, size)), |f.socket|);
          f.(received := f.received + f.socket[..n], socket := f.socket[n..])
      case TickEvent =>
        f.(consumed := f.consumed + Min(Wanted(f.received[..f.consumed]), |f.received| - f.consumed))
  }

  function FlowAfter(f: Flow, size: nat, events: seq<Event>): (g: Flow)
    requires Flows(f, size)
    ensures Flows(g, size)
    decreases |events|
  {
    if events == [] then f else FlowAfter(Flowed(f, size, events[0]), size, events[1..])
  }

  /** Every byte that arrived at an open connection has been received or waits in the socket, in order. */
  lemma {:induction false} EveryByte(f: Flow, size: nat, events: seq<Event>)
    requires Flows(f, size)
    ensures var g := FlowAfter(f, size, events);
      && (g.open ==> f.open && g.received + g.socket == f.received + f.socket + Arrived(events))
      && g.received <= f.received + f.socket + Arrived(events)
    decreases |events|
  {
    var all := f.received + f.socket;
    if events == [] {
      assert all + [] == all;
    } else {
      var g := Flowed(f, size, events[0]);
      var bytes := if events[0].Arrive? then events[0].bytes else [];
      assert all + (bytes + Arrived(events[1..])) == (all + bytes) + Arrived(events[1..]);
      if f.open {
        Moved(f, size, events[0], bytes);
      } else {
        Closed(g, size, events[1..]);
        assert g.received == f.received <= all + Arrived(events);
      }
      if f.open {
        EveryByte(g, size, events[1..]);
      }
    }
  }

  lemma Moved(f: Flow, size: nat, event: Event, bytes: seq<Byte>)
    requires Flows(f, size) && f.open && bytes == if event.Arrive? then event.bytes else []
    ensures var g := Flowed(f, size, event); g.received + g.socket == f.received + f.socket + bytes
  {
    match event {
      case Arrive(_) =>
      case Receive(count) =>
        var n := Min(Min(count, Room(f, size)), |f.socket|);
        assert f.socket == f.socket[..n] + f.socket[n..];
      case TickEvent =>
    }
  }

  lemma {:induction false} Closed(f: Flow, size: nat, events: seq<Event>)
    requires Flows(f, size) && !f.open
    ensures FlowAfter(f, size, events) == f
    decreases |events|
  {
    if events != [] {
      Closed(f, size, events[1..]);
    }
  }

  /** Server::Select asks for the input of a client only while its ring is not full. */
  predicate Selected(f: Flow, size: nat, events: seq<Event>)
    requires Flows(f, size)
    decreases |events|
  {
    events != [] ==>
      && (events[0].Receive? ==> |f.received| < f.consumed + size)
      && Selected(Flowed(f, size, events[0]), size, events[1..])
  }

  /** An open connection stays open exactly if every recv call is made at a ring that is not full. */
  lemma {:induction false} OpenExactly(f: Flow, size: nat, events: seq<Event>)
    requires Flows(f, size) && f.open
    ensures FlowAfter(f, size, events).open <==> Selected(f, size, events)
    decreases |events|
  {
    if events != [] {
      var g := Flowed(f, size, events[0]);
      if g.open {
        OpenExactly(g, size, events[1..]);
      } else {
        Closed(g, size, events[1..]);
      }
    }
  }

  const NOTHING := Flow(0, [], [], true)

  /**
   Any schedule of arrivals, recv calls and ticks: the bytes move as Flowed says, and when the ring has been
   drained, the payloads executed are the complete frames of all bytes received.
   */
  method Serve(size: nat, events: seq<Event>) returns (executed: seq<seq<Byte>>, rest: seq<Byte>, open: bool)
    requires IsPowerOfTwo(size)
    ensures var f := FlowAfter(NOTHING, size, events);
      executed == Frames(f.received, LEN) && rest == f.socket && open == f.open
    ensures open <==> Selected(NOTHING, size, events)
    ensures open && rest == [] ==> executed == Frames(Arrived(events), LEN)
  {
    var client := new FrameReader(size);
    rest, open := HandleAll(client, events);
    client.Drain();
    executed := client.executed;
    AllArrived(size, events);
    OpenExactly(NOTHING, size, events);
  }

  lemma AllArrived(size: nat, events: seq<Event>)
    ensures var f := FlowAfter(NOTHING, size, events); f.open && f.socket == [] ==> f.received == Arrived(events)
  {
    EveryByte(NOTHING, size, events);
    assert [] + [] + Arrived(events) == Arrived(events);
    var f := FlowAfter(NOTHING, size, events);
    assert f.received + [] == f.received;
  }

  /** The client, the bytes in its socket and whether it is open are what f says. */
  ghost predicate Stage(client: FrameReader, socket: seq<Byte>, open: bool, f: Flow, size: nat)
    reads client, client.ring, client.ring.buffer
  {
    && client.Valid() && client.ring.buffer.Length == size
    && f == Flow(|client.consumed|, client.received, socket, open)
  }

  method HandleAll(client: FrameReader, events: seq<Event>) returns (socket: seq<Byte>, open: bool)
    requires Stage(client, [], true, NOTHING, client.ring.buffer.Length)
    modifies client, client.ring, client.ring.buffer
    ensures client.Valid() && Flows(NOTHING, client.ring.buffer.Length)
    ensures var size := client.ring.buffer.Length; Stage(client, socket, open, FlowAfter(NOTHING, size, events), size)
  {
    socket, open := [], true;
    ghost var f, size := NOTHING, client.ring.buffer.Length;
    var i := 0;
    while i < |events| && open
      invariant 0 <= i <= |events| && Flows(f, size) && Stage(client, socket, open, f, size)
      invariant FlowAfter(f, size, events[i..]) == FlowAfter(NOTHING, size, events)
    {
      assert events[i..][1..] == events[i + 1..];
      socket, open := Handle(client, events[i], socket, f, size);
      f := Flowed(f, size, events[i]);
      i := i + 1;
    }
    if !open {
      Closed(f, size, events[i..]);
    }
  }

  method Handle(client: FrameReader, event: Event, socket: seq<Byte>, ghost f: Flow, ghost size: nat)
    returns (rest: seq<Byte>, open: bool)
    requires Flows(f, size) && Stage(client, socket, true, f, size)
    modifies client, client.ring, client.ring.buffer
    ensures Stage(client, rest, open, Flowed(f, size, event), size)
  {
    rest, open := socket, true;
    match event {
      case Arrive(bytes) => rest := socket + bytes;
      case Receive(count) => rest, open := TakeFrom(client, socket, count);
      case TickEvent => client.Tick();
    }
  }

  /** One recv call; without anything to read the socket is not ready and there is no call. */
  method TakeFrom(client: FrameReader, socket: seq<Byte>, count: nat) returns (rest: seq<Byte>, open: bool)
    requires client.Valid()
    modifies client`received, client.ring, client.ring.buffer
    ensures client.Valid() && open == (old(client.ring.ToRecv()) > 0)
    ensures var n := Min(Min(count, old(client.ring.ToRecv())), |socket|);
      client.received == old(client.received) + socket[..n] && rest == socket[n..]
  {
    var n := Min(Min(count, client.ring.ToRecv()), |socket|);
    rest := socket[n..];
    open := client.ring.ToRecv() > 0;
    if n > 0 || !open {
      var _ := client.Deliver(socket[..n]);
    } else {
      assert client.received + [] == client.received;
    }
  }

  ghost function Arrived(events: seq<Event>): seq<Byte> {
    if events == [] then [] else
      (if events[0].Arrive? then events[0].bytes else []) + Arrived(events[1..])
  }
}
