/**
 Packet sequence numbers: the sequence methods of EOClient and its check in Execute
 (src/eoclient.cpp), the pings of src/eoserver.cpp, and a client on in-order channels.
 */
module Sequence {
  import opened Bytes
  import opened Common
  import opened PacketFields

  const MAX_START := 1757

  type Start = n: int | 0 <= n <= MAX_START
  type Count = n: int | 0 <= n < 10

  /** The division of C++, which truncates towards zero. */
  function TruncDiv(a: int, b: int): int
    requires b > 0
  {
    if a >= 0 then a / b else -(-a / b)
  }

  // -- The server's methods ------------------------------------------------------------

  class EOClient {
    var seqStart: int
    var upcomingSeqStart: int
    var seqNo: Count
    var needpong: bool

    constructor ()
      ensures seqStart == 0 && upcomingSeqStart == -1 && seqNo == 0 && !needpong
    {
      seqStart, upcomingSeqStart, seqNo, needpong := 0, -1, 0, false;
    }

    method InitNewSequence(random: Start)
      modifies `seqStart
      ensures seqStart == random
    {
      seqStart := random;
    }

    method PingNewSequence(random: Start)
      modifies `upcomingSeqStart
      ensures upcomingSeqStart == random
    {
      upcomingSeqStart := random;
    }

    method PongNewSequence()
      modifies `seqStart
      ensures seqStart == upcomingSeqStart
    {
      seqStart := upcomingSeqStart;
    }

    /** For every choice in the range the bytes fit, avoid 253 and more, and decode to the start. */
    method GetSeqInitBytes(random: int) returns (s1: Byte, s2: Byte)
      requires 0 <= seqStart <= MAX_START
      requires InitLow(seqStart) <= random <= InitHigh(seqStart)
      ensures s1 == random && s1 <= 252 && s2 <= 252
      ensures s1 * 7 + s2 - 13 == seqStart == InitDecoded(s1, s2)
    {
      InitChoice(seqStart, random);
      s1 := random % 256;
      s2 := (seqStart - s1 * 7 + 13) % 256;
    }

    method GetSeqUpdateBytes(random: int) returns (s1: nat, s2: Byte)
      requires 0 <= upcomingSeqStart <= MAX_START
      requires upcomingSeqStart <= random <= upcomingSeqStart + 252
      ensures s1 == random < MAX2 && s2 < MAX1
      ensures s1 - s2 == upcomingSeqStart
    {
      s1 := random % 0x1_0000;
      s2 := (s1 - upcomingSeqStart) % 256;
    }

    method GenSequence() returns (result: int)
      requires 0 <= seqStart
      modifies `seqNo
      ensures result == seqStart + old(seqNo) && seqNo == (old(seqNo) + 1) % 10
    {
      result := seqStart + seqNo;
      seqNo := (seqNo + 1) % 10;
    }

    /** The sequence part of Execute; body is the packet behind its two id bytes. */
    method CheckSequence(kind: Kind, body: seq<Byte>) returns (ok: bool)
      requires 0 <= seqStart && (kind.Pong? ==> 0 <= upcomingSeqStart)
      modifies `seqStart, `seqNo
      ensures seqStart == if kind.Pong? then upcomingSeqStart else old(seqStart)
      ensures seqNo == (old(seqNo) + 1) % 10
      ensures ok <==> kind.InitFamily? || ReadSequence(seqStart + old(seqNo), body) == seqStart + old(seqNo)
    {
      if !kind.InitFamily? {
        if kind.Pong? {
          PongNewSequence();
        }
        var serverSeq := GenSequence();
        var reader := new PacketReader([0, 0] + body);
        var clientSeq;
        assert reader.data[2..] == body;
        if serverSeq >= MAX1 {
          clientSeq := reader.GetNumber(2);
        } else {
          clientSeq := reader.GetNumber(1);
        }
        ok := clientSeq == serverSeq;
      } else {
        var _ := GenSequence();
        ok := true;
      }
    }

    /** This client's share of server_ping_all: a missing pong closes, otherwise a ping goes out. */
    method Ping(start: Start, random: int) returns (closed: bool, s1: nat, s2: Byte)
      requires start <= random <= start + 252
      modifies `upcomingSeqStart, `needpong
      ensures closed == old(needpong) && needpong
      ensures closed ==> upcomingSeqStart == old(upcomingSeqStart)
      ensures !closed ==> upcomingSeqStart == start && s1 == random < MAX2 && s2 < MAX1 && s1 - s2 == start
    {
      closed, s1, s2 := needpong, 0, 0;
      if !needpong {
        PingNewSequence(start);
        s1, s2 := GetSeqUpdateBytes(random);
        needpong := true;
      }
    }

    /** Connection_Ping, when the pong has come out of the action queue. */
    method HandlePong()
      modifies `needpong
      ensures !needpong
    {
      if needpong {
        needpong := false;
      }
    }
  }

  function InitLow(start: int): int {
    var low := TruncDiv(start - 252 + 13 + 6, 7);
    if low > 0 then low else 0
  }

  lemma InitChoice(start: Start, random: int)
    requires InitLow(start) <= random <= InitHigh(start)
    ensures 0 <= random <= 252 && 0 <= start - random * 7 + 13 <= 252
  {
  }

  function InitHigh(start: int): int {
    TruncDiv(start + 13, 7)
  }

  /** The choices of the first byte are those for which there is a second one below 253. */
  lemma InitRangeExactly(start: Start, s1: int)
    ensures InitLow(start) <= s1 <= InitHigh(start) <==> s1 >= 0 && 0 <= start - (s1 * 7 - 13) <= 252
  {
  }

  /** There is always a choice of init bytes. */
  lemma InitRangeNonempty(start: Start)
    ensures 0 <= InitLow(start) <= InitHigh(start) <= 252
  {
  }

  /** How a client reads the init bytes. */
  function InitDecoded(s1: Byte, s2: Byte): int {
    s1 * 7 + s2 - 13
  }

  // -- The protocol --------------------------------------------------------------------

  datatype Kind = Normal | Pong | InitFamily

  /** What the server reads as the sequence number, knowing the one it expects. */
  function ReadSequence(expected: int, body: seq<Byte>): int {
    var k := if expected >= MAX1 then 2 else 1;
    ReadDigits(body[..Min(k, |body|)])
  }

  /** How a client writes a sequence number. */
  function SequenceBytes(v: UInt): seq<Byte> {
    ENumberBytes(v)[..if v >= MAX1 then 2 else 1]
  }

  /** One byte is written, and read, below 253, and two from there on. */
  lemma SequenceWidth(v: UInt, expected: int, body: seq<Byte>)
    requires |body| >= 2
    ensures SequenceBytes(v) == ENumberBytes(v)[..if v < 253 then 1 else 2]
    ensures ReadSequence(expected, body) == ReadDigits(body[..if expected < 253 then 1 else 2])
  {
  }

  lemma SequenceReadBack(v: UInt, rest: seq<Byte>)
    requires v < MAX2
    ensures ReadSequence(v, SequenceBytes(v) + rest) == v
  {
    var k := if v >= MAX1 then 2 else 1;
    var s := SequenceBytes(v);
    ShortFieldKeeps(v, k);
    assert v % Power(k) == v;
    assert |s| == k && (s + rest)[..k] == s;
  }

  /** A packet on its way to the server. */
  datatype ClientPacket = ClientPacket(kind: Kind, body: seq<Byte>)

  /** A packet on its way to the client: the init reply or a ping, with its two sequence numbers. */
  datatype ServerPacket = InitReply(s1: Byte, s2: Byte) | Ping(p1: nat, p2: Byte)

  /** The start that a client adopts. */
  function Adopted(p: ServerPacket): int {
    match p
    case InitReply(s1, s2) => InitDecoded(s1, s2)
    case Ping(p1, p2) => p1 - p2
  }

  datatype System = System(
    seqStart: int, upcoming: int, seqNo: Count, needpong: bool,  // the server's record of the client
    pongQueued: bool,                       // a pong waits in the server's action queue
    toClient: seq<ServerPacket>, toServer: seq<ClientPacket>,  // the two channels
    started: bool, start: int, count: Count,    // the client: has it a start, which, and its counter
    hungUp: bool,                           // closed for a missing pong
    badSequence: bool)                      // closed for a bad sequence number

  /** What can happen next. Random choices are cut to their range. */
  datatype Event =
    | PingAll(start: Start, pick: nat)
    | ClientReceives(rest: seq<Byte>)
    | ClientSends(init: bool, rest: seq<Byte>)
    | ServerReceives
    | PongHandled

  /** The next packet of the client. */
  function Numbered(s: System, kind: Kind, rest: seq<Byte>): ClientPacket
    requires 0 <= s.start <= MAX_START
  {
    ClientPacket(kind, if kind.InitFamily? then rest else SequenceBytes(s.start + s.count) + rest)
  }

  function ClientSendsPacket(s: System, kind: Kind, rest: seq<Byte>): System
    requires 0 <= s.start <= MAX_START
  {
    s.(toServer := s.toServer + [Numbered(s, kind, rest)], count := (s.count + 1) % 10)
  }

  function Next(s: System, e: Event): System {
    if s.hungUp || s.badSequence then s else
    match e
    case PingAll(start, pick) =>
      if s.needpong then s.(hungUp := true)
      else
        var s1 := start + pick % 253;
        s.(upcoming := start, needpong := true, toClient := s.toClient + [Ping(s1, (s1 - start) % 256)])
    case ClientReceives(rest) =>
      if s.toClient == [] then s
      else
        var p := s.toClient[0];
        var t := s.(toClient := s.toClient[1..], started := true, start := Adopted(p));
        if p.Ping? && 0 <= t.start <= MAX_START then ClientSendsPacket(t, Pong, rest) else t
    case ClientSends(init, rest) =>
      if s.started && 0 <= s.start <= MAX_START
      then ClientSendsPacket(s, if init then InitFamily else Normal, rest) else s
    case ServerReceives =>
      if s.toServer == [] then s
      else
        var p := s.toServer[0];
        var start := if p.kind.Pong? then s.upcoming else s.seqStart;
        var expected := start + s.seqNo;
        var ok := p.kind.InitFamily? || ReadSequence(expected, p.body) == expected;
        s.(seqStart := start, seqNo := (s.seqNo + 1) % 10, toServer := s.toServer[1..],
           pongQueued := s.pongQueued || (ok && p.kind.Pong?), badSequence := !ok)
    case PongHandled =>
      if s.pongQueued then s.(pongQueued := false, needpong := false) else s
  }

  function Run(s: System, events: seq<Event>): System
    decreases |events|
  {
    if events == [] then s else Run(Next(s, events[0]), events[1..])
  }

  /** The state right after Init_Init has sent its reply, with no ping outstanding. */
  predicate Initialised(s: System) {
    && 0 <= s.seqStart <= MAX_START && !s.needpong && !s.pongQueued
    && |s.toClient| == 1 && s.toClient[0].InitReply? && Adopted(s.toClient[0]) == s.seqStart
    && s.toServer == [] && !s.started && s.count == s.seqNo && !s.hungUp && !s.badSequence
  }

  // -- The invariant -------------------------------------------------------------------

  function Pongs(q: seq<ClientPacket>): nat {
    if q == [] then 0 else (if q[0].kind.Pong? then 1 else 0) + Pongs(q[1..])
  }

  function Pings(q: seq<ServerPacket>): nat {
    if q == [] then 0 else (if q[0].Ping? then 1 else 0) + Pings(q[1..])
  }

  /** The start the server will have after the packets of q. */
  function StartAfter(q: seq<ClientPacket>, start: int, upcoming: int): int {
    if q == [] then start
    else StartAfter(q[1..], if q[0].kind.Pong? then upcoming else start, upcoming)
  }

  /** The server will find the number it expects in every packet of q. */
  ghost predicate Accepts(q: seq<ClientPacket>, start: int, upcoming: int, n: Count) {
    if q == [] then true else
      var p := q[0];
      var base := if p.kind.Pong? then upcoming else start;
      && (p.kind.InitFamily? || ReadSequence(base + n, p.body) == base + n)
      && Accepts(q[1..], base, upcoming, (n + 1) % 10)
  }

  /**
   A client with start v and a server with start u never notice a difference: the server reads only the low
   digit while its own numbers stay below 253, which they do for every count exactly up to 243.
   */
  predicate Alike(v: int, u: int) {
    v == u || (u <= 243 && v > u && (v - u) % 253 == 0)
  }

  /** The start that the init reply at place i brings will not make a difference when it is adopted. */
  ghost predicate ReplyFits(s: System, i: nat)
    requires i < |s.toClient|
  {
    var v := Adopted(s.toClient[i]);
    && 0 <= v <= MAX_START
    && if i == 0 then Alike(v, StartAfter(s.toServer, s.seqStart, s.upcoming))
       else i == 1 && s.toClient[0].Ping? && Alike(v, s.upcoming)
  }

  /**
   One ping at most is under way, as a ping, as the pong that answers it, or as the pong waiting to be
   handled; the server will agree with every packet on the way, and then with the client.
   */
  ghost predicate Inv(s: System) {
    && !s.badSequence
    && 0 <= s.seqStart <= MAX_START
    && Accepts(s.toServer, s.seqStart, s.upcoming, s.seqNo)
    && s.count == (s.seqNo + |s.toServer|) % 10
    && Pings(s.toClient) + Pongs(s.toServer) + (if s.pongQueued then 1 else 0) == (if s.needpong then 1 else 0)
    && (forall i :: 0 <= i < |s.toClient| && s.toClient[i].InitReply? ==> ReplyFits(s, i))
    && (forall i :: 0 <= i < |s.toClient| && s.toClient[i].Ping? ==> Adopted(s.toClient[i]) == s.upcoming)
    && (Pings(s.toClient) + Pongs(s.toServer) > 0 ==> 0 <= s.upcoming <= MAX_START)
    && if s.started then 0 <= s.start <= MAX_START && Alike(s.start, StartAfter(s.toServer, s.seqStart, s.upcoming))
       else s.toServer == [] && s.toClient != []
  }

  lemma {:induction false} AcceptsMore(q: seq<ClientPacket>, start: int, upcoming: int, n: Count, p: ClientPacket,
                                           count: Count)
    requires Accepts(q, start, upcoming, n) && count == (n + |q|) % 10
    requires var base := if p.kind.Pong? then upcoming else StartAfter(q, start, upcoming);
      p.kind.InitFamily? || ReadSequence(base + count, p.body) == base + count
    ensures Accepts(q + [p], start, upcoming, n)
    ensures StartAfter(q + [p], start, upcoming) == if p.kind.Pong? then upcoming else StartAfter(q, start, upcoming)
    ensures Pongs(q + [p]) == Pongs(q) + if p.kind.Pong? then 1 else 0
    decreases |q|
  {
    if q == [] {
      assert q + [p] == [p];
      assert (n + |q|) % 10 == n;
    } else {
      assert (q + [p])[1..] == q[1..] + [p];
      CountsOn(n, |q[1..]|);
      AcceptsMore(q[1..], if q[0].kind.Pong? then upcoming else start, upcoming, (n + 1) % 10, p, count);
    }
  }

  /** Without a pong under way the upcoming start does not matter. */
  lemma {:induction false} UpcomingFree(q: seq<ClientPacket>, start: int, u: int, v: int, n: Count)
    requires Pongs(q) == 0
    ensures Accepts(q, start, u, n) == Accepts(q, start, v, n)
    ensures StartAfter(q, start, u) == start == StartAfter(q, start, v)
    decreases |q|
  {
    if q != [] {
      UpcomingFree(q[1..], start, u, v, (n + 1) % 10);
    }
  }

  lemma {:induction false} PingsMore(q: seq<ServerPacket>, p: ServerPacket)
    ensures Pings(q + [p]) == Pings(q) + if p.Ping? then 1 else 0
    decreases |q|
  {
    if q == [] {
      assert q + [p] == [p];
    } else {
      assert (q + [p])[1..] == q[1..] + [p];
      PingsMore(q[1..], p);
    }
  }

  lemma {:induction false} StartAfterBounds(q: seq<ClientPacket>, start: int, upcoming: int)
    requires 0 <= start <= MAX_START && (Pongs(q) > 0 ==> 0 <= upcoming <= MAX_START)
    ensures 0 <= StartAfter(q, start, upcoming) <= MAX_START
    decreases |q|
  {
    if q != [] {
      StartAfterBounds(q[1..], if q[0].kind.Pong? then upcoming else start, upcoming);
    }
  }

  /** The server finds the number it expects if it expects one from a start that is alike. */
  lemma NumberedReads(s: System, kind: Kind, rest: seq<Byte>, base: Start)
    requires 0 <= s.start <= MAX_START && Alike(s.start, base)
    ensures var p := Numbered(s, kind, rest);
      p.kind == kind && (kind.InitFamily? || ReadSequence(base + s.count, p.body) == base + s.count)
  {
    AlikeReads(s.start, base, s.count, rest);
  }

  lemma ClientSendsKeeps(s: System, kind: Kind, rest: seq<Byte>)
    requires 0 <= s.start <= MAX_START && s.count == (s.seqNo + |s.toServer|) % 10
    requires Accepts(s.toServer, s.seqStart, s.upcoming, s.seqNo)
    requires 0 <= s.seqStart <= MAX_START && (Pongs(s.toServer) > 0 || kind.Pong? ==> 0 <= s.upcoming <= MAX_START)
    requires Alike(s.start, if kind.Pong? then s.upcoming else StartAfter(s.toServer, s.seqStart, s.upcoming))
    ensures var t := ClientSendsPacket(s, kind, rest);
      && Accepts(t.toServer, s.seqStart, s.upcoming, s.seqNo)
      && t.count == (s.seqNo + |t.toServer|) % 10
      && StartAfter(t.toServer, s.seqStart, s.upcoming)
        == (if kind.Pong? then s.upcoming else StartAfter(s.toServer, s.seqStart, s.upcoming))
      && Pongs(t.toServer) == Pongs(s.toServer) + if kind.Pong? then 1 else 0
  {
    StartAfterBounds(s.toServer, s.seqStart, s.upcoming);
    var base := if kind.Pong? then s.upcoming else StartAfter(s.toServer, s.seqStart, s.upcoming);
    NumberedReads(s, kind, rest, base);
    AcceptsMore(s.toServer, s.seqStart, s.upcoming, s.seqNo, Numbered(s, kind, rest), s.count);
    OneMore(s.toServer, Numbered(s, kind, rest), s.seqNo, s.count);
  }

  lemma OneMore(q: seq<ClientPacket>, p: ClientPacket, n: Count, count: Count)
    requires count == (n + |q|) % 10
    ensures (count + 1) % 10 == (n + |q + [p]|) % 10
  {
    NextCount(n, |q|);
  }

  /** A packet numbered from a start that is alike is read as what the server expects. */
  lemma AlikeReads(v: Start, u: Start, n: Count, rest: seq<Byte>)
    requires Alike(v, u)
    ensures ReadSequence(u + n, SequenceBytes(v + n) + rest) == u + n
  {
    if v == u {
      SequenceReadBack(v + n, rest);
    } else {
      LowDigitRead(v + n, rest);
      assert (v + n) - (u + n) == 253 * ((v - u) / 253);
    }
  }

  /** A server that expects less than 253 reads the low digit only. */
  lemma LowDigitRead(v: UInt, rest: seq<Byte>)
    ensures ReadDigits((SequenceBytes(v) + rest)[..1]) == v % 253
  {
    ShortFieldKeeps(v, 1);
    assert (SequenceBytes(v) + rest)[..1] == ENumberBytes(v)[..1];
  }

  lemma CountsOn(n: nat, k: nat)
    ensures ((n + 1) % 10 + k) % 10 == (n + (k + 1)) % 10
  {
  }

  lemma NextCount(n: nat, k: nat)
    ensures ((n + k) % 10 + 1) % 10 == (n + (k + 1)) % 10
  {
  }

  lemma NextKeeps(s: System, e: Event)
    requires Inv(s)
    ensures Inv(Next(s, e))
  {
    if !s.hungUp {
      match e
      case PingAll(start, pick) => PingKeeps(s, start, pick);
      case ClientReceives(rest) => ReceiveKeeps(s, rest);
      case ClientSends(init, rest) => SendKeeps(s, init, rest);
      case ServerReceives => ServerKeeps(s);
      case PongHandled =>
    }
  }

  lemma SendKeeps(s: System, init: bool, rest: seq<Byte>)
    requires Inv(s)
    ensures Inv(Next(s, ClientSends(init, rest)))
  {
    if s.started && !s.hungUp {
      var kind := if init then InitFamily else Normal;
      ClientSendsKeeps(s, kind, rest);
      var t := ClientSendsPacket(s, kind, rest);
      MoreSentKeeps(s, t.toServer, t.count);
    }
  }

  /** One more packet on the way, other than a pong, that the server will accept. */
  lemma MoreSentKeeps(s: System, q: seq<ClientPacket>, count: Count)
    requires Inv(s) && s.started && count == (s.seqNo + |q|) % 10
    requires Accepts(q, s.seqStart, s.upcoming, s.seqNo) && Pongs(q) == Pongs(s.toServer)
    requires StartAfter(q, s.seqStart, s.upcoming) == StartAfter(s.toServer, s.seqStart, s.upcoming)
    ensures Inv(s.(toServer := q, count := count))
  {
    var t := s.(toServer := q, count := count);
    forall i | 0 <= i < |t.toClient| && t.toClient[i].InitReply? ensures ReplyFits(t, i) {
      assert ReplyFits(s, i);
    }
  }

  lemma ServerKeeps(s: System)
    requires Inv(s)
    ensures Inv(Next(s, ServerReceives))
  {
    if s.toServer != [] {
      CountsOn(s.seqNo, |s.toServer[1..]|);
    }
  }

  lemma PingKeeps(s: System, start: Start, pick: nat)
    requires Inv(s)
    ensures Inv(Next(s, PingAll(start, pick)))
  {
    if !s.hungUp && !s.needpong {
      UpcomingFree(s.toServer, s.seqStart, s.upcoming, start, s.seqNo);
      var t := Next(s, PingAll(start, pick));
      var p := t.toClient[|s.toClient|];
      assert Adopted(p) == start;
      PingsMore(s.toClient, p);
      NoPing(s.toClient);
    }
  }

  lemma {:induction false} NoPing(q: seq<ServerPacket>)
    requires Pings(q) == 0
    ensures forall i :: 0 <= i < |q| ==> !q[i].Ping?
    decreases |q|
  {
    if q != [] {
      NoPing(q[1..]);
      assert forall i :: 0 < i < |q| ==> q[i] == q[1..][i - 1];
    }
  }

  lemma ReceiveKeeps(s: System, rest: seq<Byte>)
    requires Inv(s)
    ensures Inv(Next(s, ClientReceives(rest)))
  {
    if !s.hungUp && s.toClient != [] {
      var p := s.toClient[0];
      var t := s.(toClient := s.toClient[1..], started := true, start := Adopted(p));
      if p.Ping? {
        ClientSendsKeeps(t, Pong, rest);
      } else {
        assert ReplyFits(s, 0);
      }
    }
  }

  /** A client is never closed for a bad sequence number, whatever is in flight when a ping comes. */
  lemma {:induction false} NeverBadSequence(s: System, events: seq<Event>)
    requires Inv(s)
    ensures !Run(s, events).badSequence
    decreases |events|
  {
    if events != [] {
      NextKeeps(s, events[0]);
      NeverBadSequence(Next(s, events[0]), events[1..]);
    }
  }

  lemma InitialisedKeeps(s: System)
    requires Initialised(s)
    ensures Inv(s)
  {
    assert s.toClient == [s.toClient[0]];
    assert Pings(s.toClient[1..]) == 0;
  }

  lemma FromInit(s: System, events: seq<Event>)
    requires Initialised(s)
    ensures !Run(s, events).badSequence
  {
    InitialisedKeeps(s);
    NeverBadSequence(s, events);
  }

  // -- A ping before the init reply ----------------------------------------------------

  /** A ping went out, and then Init_Init drew its start; the client gets both in this order. */
  predicate PingedFirst(s: System, ping: ServerPacket, reply: ServerPacket) {
    && Initialised(s.(needpong := false, toClient := [reply])) && s.needpong
    && s.toClient == [ping, reply] && ping.Ping? && Adopted(ping) == s.upcoming && 0 <= s.upcoming <= MAX_START
  }

  /** Client and server with no packet under way, the one with start v and the other with u. */
  predicate Drifted(s: System, v: Start, u: Start) {
    && s.toServer == [] && s.started && s.start == v && s.seqStart == u && s.count == s.seqNo
    && !s.hungUp && !s.badSequence
  }

  predicate Noticed(v: Start, u: Start, n: Count) {
    ReadSequence(u + n, SequenceBytes(v + n)) != u + n
  }

  const SEND := ClientSends(false, [])

  lemma DriftStep(s: System, v: Start, u: Start)
    requires Drifted(s, v, u)
    ensures var t := Next(Next(s, SEND), ServerReceives);
      if Noticed(v, u, s.seqNo) then t.badSequence else Drifted(t, v, u) && t.seqNo == (s.seqNo + 1) % 10
  {
    var p := ClientPacket(Normal, SequenceBytes(v + s.count) + []);
    assert Next(s, SEND).toServer == [p];
    assert p.body == SequenceBytes(v + s.seqNo);
  }

  lemma {:induction false} RunAppends(s: System, a: seq<Event>, b: seq<Event>)
    ensures Run(s, a + b) == Run(Run(s, a), b)
    decreases |a|
  {
    if a == [] {
      assert a + b == b;
    } else {
      assert (a + b)[1..] == a[1..] + b;
      RunAppends(Next(s, a[0]), a[1..], b);
    }
  }

  lemma RunTwo(s: System, e: Event, f: Event)
    ensures Run(s, [e, f]) == Next(Next(s, e), f)
  {
    assert [e, f][1..] == [f] && [f][1..] == [];
    assert Run(Next(s, e), [f]) == Next(Next(s, e), f);
  }

  lemma CountDown(n: Count, k: Count)
    requires n != k
    ensures (n - (k + 1) % 10) % 10 == (n - k) % 10 - 1
  {
  }

  /** Packets are exchanged until the count is one at which the difference shows. */
  lemma {:induction false} DriftBreaks(s: System, v: Start, u: Start, n: Count) returns (events: seq<Event>)
    requires Drifted(s, v, u) && Noticed(v, u, n)
    ensures Run(s, events).badSequence
    decreases (n - s.seqNo) % 10
  {
    DriftStep(s, v, u);
    RunTwo(s, SEND, ServerReceives);
    var first, t := [SEND, ServerReceives], Next(Next(s, SEND), ServerReceives);
    if Noticed(v, u, s.seqNo) {
      return first;
    }
    CountDown(n, s.seqNo);
    var more := DriftBreaks(t, v, u, n);
    RunAppends(s, first, more);
    events := first + more;
  }

  lemma LowDigitAlike(v: Start, u: Start)
    requires u <= 243
    ensures Alike(v, u) <==> v % 253 == u
  {
    assert v == 253 * (v / 253) + v % 253;
    assert v > u && (v - u) % 253 == 0 ==> v == u + 253 * ((v - u) / 253);
  }

  /** Starts that are not alike show at the first or at the last count. */
  lemma DifferenceShows(v: Start, u: Start)
    requires !Alike(v, u)
    ensures Noticed(v, u, 0) || Noticed(v, u, 9)
  {
    if u <= 243 {
      LowDigitAlike(v, u);
      LowDigitRead(v, []);
      assert SequenceBytes(v) + [] == SequenceBytes(v);
    } else {
      SequenceReadBack(v + 9, []);
      assert SequenceBytes(v + 9) + [] == SequenceBytes(v + 9);
      assert u + 9 >= MAX1;
      assert |SequenceBytes(v + 9)| <= 2;
    }
  }

  lemma PingReceived(s: System, rest: seq<Byte>)
    requires s.toClient != [] && s.toClient[0].Ping? && 0 <= Adopted(s.toClient[0]) <= MAX_START
    requires !s.hungUp && !s.badSequence
    ensures var t := s.(toClient := s.toClient[1..], started := true, start := Adopted(s.toClient[0]));
      Next(s, ClientReceives(rest)) == ClientSendsPacket(t, Pong, rest)
  {
  }

  lemma PingAnswered(s: System, ping: ServerPacket, reply: ServerPacket) returns (pong: ClientPacket)
    requires s.toClient == [ping, reply] && ping.Ping? && Adopted(ping) == s.upcoming && 0 <= s.upcoming <= MAX_START
    requires s.toServer == [] && !s.hungUp && !s.badSequence
    ensures pong == Numbered(s.(toClient := [reply], started := true, start := s.upcoming), Pong, [])
    ensures Next(s, ClientReceives([])) ==
      s.(toClient := [reply], started := true, start := s.upcoming, count := (s.count + 1) % 10, toServer := [pong])
  {
    PingReceived(s, []);
    assert s.toClient[1..] == [reply];
    var t := s.(toClient := [reply], started := true, start := s.upcoming);
    pong := Numbered(t, Pong, []);
    OnlyOne(pong);
  }

  lemma OnlyOne(p: ClientPacket)
    ensures [] + [p] == [p]
  {
  }

  lemma PongComesIn(s: System, q: ClientPacket)
    requires s.toServer == [q] && q.kind.Pong? && !s.hungUp && !s.badSequence
    requires ReadSequence(s.upcoming + s.seqNo, q.body) == s.upcoming + s.seqNo
    ensures Next(s, ServerReceives) ==
      s.(seqStart := s.upcoming, seqNo := (s.seqNo + 1) % 10, toServer := [], pongQueued := true)
  {
    assert s.toServer[1..] == [];
  }

  /** The ping is answered, the pong comes in, and the client adopts the start of the reply. */
  lemma DriftBegins(s: System, ping: ServerPacket, reply: ServerPacket) returns (events: seq<Event>)
    requires PingedFirst(s, ping, reply)
    ensures Drifted(Run(s, events), s.seqStart, s.upcoming)
  {
    var e := ClientReceives([]);
    var pong := PingAnswered(s, ping, reply);
    SequenceReadBack(s.upcoming + s.count, []);
    PongComesIn(Next(s, e), pong);
    RunTwo(s, e, ServerReceives);
    events := [e, ServerReceives] + [e];
    RunAppends(s, [e, ServerReceives], [e]);
    RunOne(Next(Next(s, e), ServerReceives), e);
  }

  lemma RunOne(s: System, e: Event)
    ensures Run(s, [e]) == Next(s, e)
  {
    assert [e][1..] == [];
  }

  lemma AlikeStands(s: System, ping: ServerPacket, reply: ServerPacket)
    requires PingedFirst(s, ping, reply) && Alike(s.seqStart, s.upcoming)
    ensures Inv(s)
  {
    assert s.toClient[1..] == [reply] && [reply][1..] == [];
    assert Pings([reply]) == 0;
  }

  /** A run that ends in a bad sequence. */
  lemma BadRun(s: System, ping: ServerPacket, reply: ServerPacket) returns (events: seq<Event>)
    requires PingedFirst(s, ping, reply) && !Alike(s.seqStart, s.upcoming)
    ensures Run(s, events).badSequence
  {
    var first := DriftBegins(s, ping, reply);
    DifferenceShows(s.seqStart, s.upcoming);
    var n: Count := if Noticed(s.seqStart, s.upcoming, 0) then 0 else 9;
    var more := DriftBreaks(Run(s, first), s.seqStart, s.upcoming, n);
    RunAppends(s, first, more);
    events := first + more;
  }

  /**
   When a ping goes out before the init reply, no run ends in a bad sequence exactly if the two starts are
   alike: equal, or the reply's start larger by a multiple of 253 and the ping's at most 243.
   */
  lemma PingBeforeInitExactly(s: System, ping: ServerPacket, reply: ServerPacket)
    requires PingedFirst(s, ping, reply)
    ensures (forall events: seq<Event> :: !Run(s, events).badSequence) <==> Alike(s.seqStart, s.upcoming)
  {
    if Alike(s.seqStart, s.upcoming) {
      AlikeStands(s, ping, reply);
      forall events: seq<Event> ensures !Run(s, events).badSequence {
        NeverBadSequence(s, events);
      }
    } else {
      var events := BadRun(s, ping, reply);
    }
  }

  // -- The server's methods and the protocol -------------------------------------------

  /** The server's part of the protocol state is that of the client record. */
  predicate Represents(c: EOClient, s: System)
    reads c
  {
    c.seqStart == s.seqStart && c.upcomingSeqStart == s.upcoming && c.seqNo == s.seqNo && c.needpong == s.needpong
  }

  /** Init_Init on a record with no ping outstanding: the state from which FromInit starts. */
  method Begin(c: EOClient, start: Start, random: int) returns (s: System)
    requires !c.needpong && InitLow(start) <= random <= InitHigh(start)
    modifies c`seqStart
    ensures Initialised(s) && Represents(c, s) && s.seqStart == start
  {
    c.InitNewSequence(start);
    var s1, s2 := c.GetSeqInitBytes(random);
    var toClient := [InitReply(s1, s2)];
    s := System(start, c.upcomingSeqStart, c.seqNo, false, false, toClient, [], false, 0, c.seqNo, false, false);
  }

  /** Every step of the server in the protocol is what the methods of its record do. */
  method ServerStep(c: EOClient, s: System, e: Event) returns (t: System)
    requires Represents(c, s) && Inv(s) && !s.hungUp && (e.PingAll? || e.ServerReceives? || e.PongHandled?)
    modifies c
    ensures t == Next(s, e) && Represents(c, t)
  {
    t := s;
    match e {
      case PingAll(start, pick) =>
        var closed, s1, s2 := c.Ping(start, start + pick % 253);
        t := if closed then s.(hungUp := true)
          else s.(upcoming := start, needpong := true, toClient := s.toClient + [Ping(s1, s2)]);
      case ServerReceives =>
        if s.toServer != [] {
          var p := s.toServer[0];
          var ok := c.CheckSequence(p.kind, p.body);
          t := s.(seqStart := c.seqStart, seqNo := c.seqNo, toServer := s.toServer[1..],
                  pongQueued := s.pongQueued || (ok && p.kind.Pong?), badSequence := !ok);
        }
      case PongHandled =>
        if s.pongQueued {
          c.HandlePong();
          t := s.(pongQueued := false, needpong := false);
        }
      case _ =>
    }
  }
}
