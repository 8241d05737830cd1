/**
 The packet scrambler of src/packet.cpp: runs of multiples are reversed, the body is
 interleaved, every byte is flipped, and 0 and 128 change places.
 */
module Scrambler {
  import opened Bytes
  import opened PacketFields
  import opened Winding

  const INIT: Byte := 255  // both PACKET_F_INIT and PACKET_A_INIT

  // -- Interleaving and flipping -------------------------------------------------------

  /** The place in the wound body of the byte sent at place j. */
  function Slot(n: nat, j: nat): (k: nat)
    requires j < n
    ensures k < n && Place(n, k) == j
  {
    if j % 2 == 0 then j / 2 else n - 1 - j / 2
  }

  /** The place on the wire of byte k of the wound body. */
  function Place(n: nat, k: nat): (j: nat)
    requires k < n
    ensures j < n
  {
    if 2 * k < n then 2 * k else 2 * (n - 1 - k) + 1
  }

  lemma SlotOfPlace(n: nat, k: nat)
    requires k < n
    ensures Slot(n, Place(n, k)) == k
  {
  }

  function Swap(b: Byte): Byte {
    if b == 128 then 0 else if b == 0 then 128 else b
  }

  function Mixed(body: seq<Byte>): (s: seq<Byte>)
    ensures |s| == |body|
  {
    seq(|body|, j requires 0 <= j < |body| => Swap(FlipTop(body[Slot(|body|, j)])))
  }

  function Unmixed(body: seq<Byte>): (s: seq<Byte>)
    ensures |s| == |body|
  {
    seq(|body|, k requires 0 <= k < |body| =>
      var c := FlipTop(body[Place(|body|, k)]);
      if k >= 2 then Swap(c) else c)
  }

  /** What Unmixed makes of a mixed body: the first two bytes miss their last swap. */
  function HeadSwapped(body: seq<Byte>): (s: seq<Byte>)
    requires |body| >= 2
    ensures |s| == |body|
  {
    [Swap(body[0]), Swap(body[1])] + body[2..]
  }

  lemma UnmixedMixed(body: seq<Byte>)
    requires |body| >= 2
    ensures Unmixed(Mixed(body)) == HeadSwapped(body)
  {
    var n := |body|;
    forall k | 0 <= k < n ensures Unmixed(Mixed(body))[k] == HeadSwapped(body)[k] {
      SlotOfPlace(n, k);
      assert Mixed(body)[Place(n, k)] == Swap(FlipTop(body[k]));
    }
  }

  // -- The two functions ---------------------------------------------------------------

  /** The bytes that winding moves: the multiples of a nonzero multiplier. */
  function Multiple(m: Byte): Byte -> bool
    requires m != 0
  {
    (b: Byte) => b % m == 0
  }

  function Encoded(raw: seq<Byte>, m: Byte): (s: seq<Byte>)
    requires |raw| >= 4
    ensures |s| == |raw|
  {
    if m == 0 || (raw[2] == INIT && raw[3] == INIT) then raw
    else
      var w := Wound(raw, Multiple(m));
      w[..2] + Mixed(w[2..])
  }

  function Decoded(body: seq<Byte>, m: Byte): (s: seq<Byte>)
    requires |body| >= 2
    ensures |s| == |body|
  {
    if m == 0 || (body[0] == INIT && body[1] == INIT) then body
    else Wound(Unmixed(body), Multiple(m))
  }

  // -- The law: what the receiver makes of what was sent -------------------------------

  predicate Scrambles(raw: seq<Byte>, m: Byte)
    requires |raw| >= 4
  {
    m != 0 && !(raw[2] == INIT && raw[3] == INIT)
  }

  function Received(raw: seq<Byte>, m: Byte): seq<Byte>
    requires |raw| >= 4
  {
    Decoded(Encoded(raw, m)[2..], m)
  }

  /** The mixed body starts like an INIT packet exactly when it begins and ends with 127. */
  lemma LooksLikeInit(body: seq<Byte>)
    requires |body| >= 2
    ensures Mixed(body)[0] == INIT && Mixed(body)[1] == INIT
      <==> body[0] == 127 && body[|body| - 1] == 127
  {
    assert Slot(|body|, 0) == 0 && Slot(|body|, 1) == |body| - 1;
  }

  /** In every other case the receiver unwinds the wound body with its head swapped. */
  lemma ReceivedIs(raw: seq<Byte>, m: Byte)
    requires |raw| >= 4 && Scrambles(raw, m)
    ensures var wb := Wound(raw, Multiple(m))[2..];
      Received(raw, m) == if wb[0] == 127 && wb[|wb| - 1] == 127 then Mixed(wb)
                          else Wound(HeadSwapped(wb), Multiple(m))
  {
    var wb := Wound(raw, Multiple(m))[2..];
    assert Encoded(raw, m)[2..] == Mixed(wb);
    LooksLikeInit(wb);
    UnmixedMixed(wb);
  }

  /**
   Every byte on the wire: the wound body goes to the even places from the front and to the odd ones from the back,
   each byte with its top bit changed, but for 0 and 128.
   */
  lemma WireByte(raw: seq<Byte>, m: Byte, j: nat)
    requires |raw| >= 4 && m != 0 && !(raw[2] == 255 && raw[3] == 255) && 2 <= j < |raw|
    ensures var w := Wound(raw, Multiple(m));
      var b := w[if j % 2 == 0 then 2 + (j - 2) / 2 else |raw| - 1 - (j - 2) / 2];
      Encoded(raw, m)[..2] == w[..2]
      && Encoded(raw, m)[j] == if b == 0 || b == 128 then b else if b < 128 then b + 128 else b - 128
  {
    var w := Wound(raw, Multiple(m));
    assert Encoded(raw, m) == w[..2] + Mixed(w[2..]);
    MixedByte(w[2..], j - 2);
  }

  lemma MixedByte(body: seq<Byte>, j: nat)
    requires j < |body|
    ensures var b := body[if j % 2 == 0 then j / 2 else |body| - 1 - j / 2];
      Mixed(body)[j] == if b == 0 || b == 128 then b else if b < 128 then b + 128 else b - 128
  {
  }

  /** A scrambled body that is taken for an INIT packet is not the one that was sent. */
  lemma UnreadBody(raw: seq<Byte>, m: Byte)
    requires |raw| >= 4 && Scrambles(raw, m)
    requires var wb := Wound(raw, Multiple(m))[2..]; wb[0] == 127 && wb[|wb| - 1] == 127
    ensures Received(raw, m) != raw[2..]
  {
    ReceivedIs(raw, m);
    LooksLikeInit(Wound(raw, Multiple(m))[2..]);
    assert Received(raw, m)[0] == INIT && Received(raw, m)[1] == INIT;
    assert raw[2..][0] == raw[2] && raw[2..][1] == raw[3];
  }

  lemma ReceivedExactly(raw: seq<Byte>, m: Byte)
    requires |raw| >= 4 && Scrambles(raw, m)
    ensures var wb := Wound(raw, Multiple(m))[2..];
      Received(raw, m) == raw[2..]
      <==> !(wb[0] == 127 && wb[|wb| - 1] == 127) && HeadSwapped(wb) == Wound(raw[2..], Multiple(m))
  {
    var wb := Wound(raw, Multiple(m))[2..];
    if wb[0] == 127 && wb[|wb| - 1] == 127 {
      UnreadBody(raw, m);
    } else {
      ReceivedIs(raw, m);
      WoundTwice(HeadSwapped(wb), Multiple(m));
      WoundTwice(raw[2..], Multiple(m));
    }
  }

  /**
   When no run crosses from the length bytes into the body, the body arrives exactly when, once wound, its
   first two bytes are neither 0 nor 128 and it does not both begin and end with 127.
   */
  lemma RoundTripExactly(raw: seq<Byte>, m: Byte)
    requires |raw| >= 4 && Scrambles(raw, m)
    requires raw[1] % m != 0 || raw[2] % m != 0
    ensures var wb := Wound(raw[2..], Multiple(m));
      Received(raw, m) == raw[2..]
      <==> wb[0] !in {0, 128} && wb[1] !in {0, 128} && !(wb[0] == 127 && wb[|wb| - 1] == 127)
  {
    var rb := raw[2..];
    assert raw == raw[..2] + rb;
    WoundSplits(raw[..2], rb, Multiple(m));
    assert Wound(raw, Multiple(m))[2..] == Wound(rb, Multiple(m));
    ReceivedExactly(raw, m);
    HeadStays(Wound(rb, Multiple(m)));
  }

  lemma HeadStays(body: seq<Byte>)
    requires |body| >= 2
    ensures HeadSwapped(body) == body <==> body[0] !in {0, 128} && body[1] !in {0, 128}
  {
    assert HeadSwapped(body)[0] == Swap(body[0]) && HeadSwapped(body)[1] == Swap(body[1]);
    assert body == [body[0], body[1]] + body[2..];
  }

  /** When no run crosses, the length bytes arrive intact unless they are two different multiples. */
  lemma HeaderExactly(raw: seq<Byte>, m: Byte)
    requires |raw| >= 4 && Scrambles(raw, m)
    requires raw[1] % m != 0 || raw[2] % m != 0
    ensures Encoded(raw, m)[..2] == raw[..2]
      <==> raw[0] % m != 0 || raw[1] % m != 0 || raw[0] == raw[1]
  {
    var head := raw[..2];
    assert raw == head + raw[2..];
    WoundSplits(head, raw[2..], Multiple(m));
    assert Encoded(raw, m)[..2] == Wound(head, Multiple(m));
    if head[0] % m == 0 && head[1] % m == 0 {
      assert head + [] == head;
      WoundRun([], head, [], Multiple(m));
      assert Reversed(head) + [] == [head[1], head[0]] && head == [head[0], head[1]];
    } else {
      WoundLoose(head, Multiple(m));
    }
  }

  /** How many multiples s begins with. */
  function Lead(s: seq<Byte>, m: Byte): (n: nat)
    requires m != 0
    ensures n <= |s| && (n == |s| || s[n] % m != 0)
    ensures forall i :: 0 <= i < n ==> s[i] % m == 0
  {
    if s == [] || s[0] % m != 0 then 0 else 1 + Lead(s[1..], m)
  }

  /** The part of a crossing run that lies in the length bytes. */
  function Border(raw: seq<Byte>, m: Byte): seq<Byte>
    requires |raw| >= 2 && m != 0
  {
    if raw[0] % m == 0 then raw[..2] else raw[1..2]
  }

  /**
   A crossing run long, of which run lies in the body, is wound as a whole. That moves the bytes of the body
   by one place, or by two; the last two bytes of the run, which come first once wound, miss a swap as well.
   */
  predicate Harmless(long: seq<Byte>, run: seq<Byte>, rest: seq<Byte>)
    requires |long| >= |run|
  {
    && (forall i :: 0 <= i < |run| ==> run[i] == if i + 2 >= |run| then Swap(long[i]) else long[i])
    && (|run| == 1 && rest != [] ==> rest[0] != 128)
  }

  /**
   When a run does cross, the body arrives exactly when that shift happens to change no byte and the wound
   body does not both begin and end with 127. With RoundTripExactly this covers every scrambled packet.
   */
  lemma CrossingExactly(raw: seq<Byte>, m: Byte)
    requires |raw| >= 4 && Scrambles(raw, m)
    requires raw[1] % m == 0 && raw[2] % m == 0
    ensures var wb, n := Wound(raw, Multiple(m))[2..], Lead(raw[2..], m);
      Received(raw, m) == raw[2..] <==>
        !(wb[0] == 127 && wb[|wb| - 1] == 127)
        && Harmless(Border(raw, m) + raw[2..2 + n], raw[2..2 + n], raw[2 + n..])
  {
    var n := Lead(raw[2..], m);
    ReceivedExactly(raw, m);
    CrossingParts(raw, m, n);
    HarmlessMeans(Border(raw, m) + raw[2..2 + n], raw[2..2 + n], raw[2 + n..], m);
  }

  /** The length byte in front of the crossing run, if there is one. */
  function Front(raw: seq<Byte>, m: Byte): seq<Byte>
    requires |raw| >= 2 && m != 0
  {
    if raw[0] % m == 0 then [] else raw[..1]
  }

  lemma CrossingRun(raw: seq<Byte>, m: Byte, n: nat)
    requires |raw| >= 4 && m != 0 && raw[1] % m == 0 && raw[2] % m == 0 && n == Lead(raw[2..], m)
    ensures var front, a, run, rest := Front(raw, m), Border(raw, m), raw[2..2 + n], raw[2 + n..];
      && raw == front + a + run + rest && raw[2..] == run + rest && raw[..2] == front + a && |front| + |a| == 2
      && All(a + run, Multiple(m)) && All(run, Multiple(m))
      && (front == [] || front[0] % m != 0) && (rest == [] || rest[0] % m != 0)
  {
    var a, run := Border(raw, m), raw[2..2 + n];
    forall i | 0 <= i < n ensures run[i] % m == 0 {
      assert run[i] == raw[2..][i];
    }
    if 2 + n < |raw| {
      assert raw[2 + n..][0] == raw[2..][n];
    }
  }

  /** The wound body, and the body wound by itself. */
  lemma CrossingParts(raw: seq<Byte>, m: Byte, n: nat)
    requires |raw| >= 4 && m != 0 && raw[1] % m == 0 && raw[2] % m == 0 && n == Lead(raw[2..], m)
    ensures var long, run := Border(raw, m) + raw[2..2 + n], raw[2..2 + n];
      var tail := Wound(raw[2 + n..], Multiple(m));
      && Wound(raw, Multiple(m))[2..] == Reversed(long[..n]) + tail
      && Wound(raw[2..], Multiple(m)) == Reversed(run) + tail
  {
    var run, rest := raw[2..2 + n], raw[2 + n..];
    CrossingRun(raw, m, n);
    CrossingBody(Front(raw, m), Border(raw, m), run, rest, m);
    WoundRun([], run, rest, Multiple(m));
    assert Reversed(run) + [] == Reversed(run) && [] + Wound(rest, Multiple(m)) == Wound(rest, Multiple(m));
  }

  lemma HarmlessMeans(long: seq<Byte>, run: seq<Byte>, rest: seq<Byte>, m: Byte)
    requires m != 0 && |long| >= |run| > 0 && |run| + |rest| >= 2 && (rest == [] || rest[0] % m != 0)
    ensures var tail := Wound(rest, Multiple(m));
      HeadSwapped(Reversed(long[..|run|]) + tail) == Reversed(run) + tail <==> Harmless(long, run, rest)
  {
    var tail := Wound(rest, Multiple(m));
    if rest != [] {
      WoundOther(rest[0], rest[1..], Multiple(m));
      assert rest == [rest[0]] + rest[1..];
    }
    ShiftedHead(long[..|run|], run, tail);
  }

  /** Undoing a shifted run, head swap included, element by element. */
  lemma ShiftedHead(shifted: seq<Byte>, run: seq<Byte>, tail: seq<Byte>)
    requires |shifted| == |run| > 0 && |run| + |tail| >= 2
    ensures HeadSwapped(Reversed(shifted) + tail) == Reversed(run) + tail <==>
      (forall i :: 0 <= i < |run| ==> run[i] == if i + 2 >= |run| then Swap(shifted[i]) else shifted[i])
      && (|run| == 1 ==> tail[0] !in {0, 128})
  {
    var n := |run|;
    var s, t := HeadSwapped(Reversed(shifted) + tail), Reversed(run) + tail;
    forall i | 0 <= i < n
      ensures s[n - 1 - i] == if i + 2 >= n then Swap(shifted[i]) else shifted[i]
      ensures t[n - 1 - i] == run[i]
    {
    }
    if s == t && n == 1 {
      assert s[1] == Swap(tail[0]) && t[1] == tail[0];
    }
    if forall i :: 0 <= i < n ==> run[i] == if i + 2 >= n then Swap(shifted[i]) else shifted[i] {
      forall k | 0 <= k < n ensures s[k] == t[k] {
        assert run[n - 1 - k] == t[k];
      }
      assert n == 1 && tail[0] !in {0, 128} ==> s == t;
      assert n >= 2 ==> s == t;
    }
  }

  /** What winding the whole packet leaves in the body when the run a + run crosses its border. */
  lemma CrossingBody(front: seq<Byte>, a: seq<Byte>, run: seq<Byte>, rest: seq<Byte>, m: Byte)
    requires m != 0 && |front| + |a| == 2
    requires (front == [] || front[|front| - 1] % m != 0) && (rest == [] || rest[0] % m != 0)
    requires All(a + run, Multiple(m))
    ensures Wound(front + a + run + rest, Multiple(m))[2..]
      == Reversed((a + run)[..|run|]) + ([] + Wound(rest, Multiple(m)))
  {
    var k := Multiple(m);
    var long := a + run;
    assert front + a + run + rest == front + (long + rest);
    WoundSplits(front, long + rest, k);
    WoundRun([], long, rest, k);
    BackAfter(front, long, |a|, Wound(front, k), Wound(rest, k));
  }

  lemma BackAfter(front: seq<Byte>, long: seq<Byte>, n: nat, w: seq<Byte>, tail: seq<Byte>)
    requires n <= |long| && |w| == |front| && |front| + n == 2
    ensures (w + (Reversed(long) + [] + tail))[2..] == Reversed(long[..|long| - n]) + ([] + tail)
  {
  }

  /** The length bytes of a crossing run arrive exactly when they are the end of the run, turned around. */
  lemma CrossingHeaderExactly(raw: seq<Byte>, m: Byte)
    requires |raw| >= 4 && Scrambles(raw, m)
    requires raw[1] % m == 0 && raw[2] % m == 0
    ensures var a := Border(raw, m);
      var long := a + raw[2..2 + Lead(raw[2..], m)];
      Encoded(raw, m)[..2] == raw[..2] <==> Reversed(long)[..|a|] == a
  {
    var n := Lead(raw[2..], m);
    CrossingRun(raw, m, n);
    CrossingFront(Front(raw, m), Border(raw, m), raw[2..2 + n], raw[2 + n..], m);
    assert Encoded(raw, m)[..2] == Wound(raw, Multiple(m))[..2];
  }

  lemma CrossingFront(front: seq<Byte>, a: seq<Byte>, run: seq<Byte>, rest: seq<Byte>, m: Byte)
    requires m != 0 && |front| + |a| == 2
    requires (front == [] || front[|front| - 1] % m != 0) && (rest == [] || rest[0] % m != 0)
    requires All(a + run, Multiple(m))
    ensures Wound(front + a + run + rest, Multiple(m))[..2] == front + a <==> Reversed(a + run)[..|a|] == a
  {
    var long, k := a + run, Multiple(m);
    assert front + a + run + rest == front + (long + rest);
    WoundSplits(front, long + rest, k);
    WoundRun([], long, rest, k);
    WoundNone(front, k);
    FrontOf(front, a, long, Wound(rest, k));
  }

  lemma WoundNone(front: seq<Byte>, k: Byte -> bool)
    requires |front| <= 2 && (front == [] || !k(front[|front| - 1]))
    ensures Wound(front, k) == front
  {
    WoundLoose(front, k);
  }

  lemma FrontOf(front: seq<Byte>, a: seq<Byte>, long: seq<Byte>, tail: seq<Byte>)
    requires |front| + |a| == 2 && |a| <= |long|
    ensures (front + (Reversed(long) + [] + tail))[..2] == front + a <==> Reversed(long)[..|a|] == a
  {
    var s := front + (Reversed(long) + [] + tail);
    assert s[..2] == front + Reversed(long)[..|a|];
    if s[..2] == front + a {
      assert s[..2][|front|..] == a;
    }
  }

  /**
   Packets that PacketBuilder::Get writes and that do not arrive: with multiplier 6, every body of 1265 to 1517
   bytes whose low length byte and second byte are no multiples of 6, and whose action is one other than 6.
   */
  lemma BuiltBodyBreaks(body: seq<Byte>)
    requires 1265 <= |body| <= 1517 && ENumberBytes(|body|)[0] % 6 != 0
    requires body[0] % 6 == 0 && body[0] != 6 && body[1] % 6 != 0
    ensures var raw := ENumberBytes(|body|)[..2] + body; Scrambles(raw, 6) && Received(raw, 6) != body
  {
    SecondLengthByte(|body|);
    BorderBreaks(ENumberBytes(|body|)[..2], body);
  }

  lemma SecondLengthByte(n: nat)
    requires 1265 <= n <= 1517
    ensures ENumberBytes(n)[1] == 6
  {
    assert Digit(n, 1) == 5;
  }

  lemma BorderBreaks(head: seq<Byte>, body: seq<Byte>)
    requires |head| == 2 <= |body| && head[0] % 6 != 0 && head[1] == 6
    requires body[0] % 6 == 0 && body[0] != 6 && body[1] % 6 != 0
    ensures Scrambles(head + body, 6) && Received(head + body, 6) != body
  {
    var raw := head + body;
    assert raw[2..] == body && raw[1] == 6 && raw[2] == body[0] && raw[3] == body[1];
    assert Lead(body, 6) == 1;
    HarmfulOne(Border(raw, 6), raw[2..3], raw[3..]);
    CrossingExactly(raw, 6);
  }

  /** A run of one byte that is shifted to another one than 6. */
  lemma HarmfulOne(border: seq<Byte>, run: seq<Byte>, rest: seq<Byte>)
    requires border == [6] && |run| == 1 && run[0] != 6
    ensures !Harmless(border + run, run, rest)
  {
    assert run[0] != Swap((border + run)[0]);
  }

  /** Such a packet: a list of 1265 bytes. */
  lemma BoundaryRunBreaks()
    ensures var body := [18, 7] + seq(1263, _ => 0);
      var raw := ENumberBytes(|body|)[..2] + body; Scrambles(raw, 6) && Received(raw, 6) != body
  {
    var body := [18, 7] + seq(1263, _ => 0);
    assert Digit(1265, 0) == 0;
    assert ENumberBytes(1265)[0] == 1;
    BuiltBodyBreaks(body);
  }

  /** INIT packets are neither scrambled nor unscrambled. */
  lemma InitPasses(raw: seq<Byte>, m: Byte)
    requires |raw| >= 4 && raw[2] == INIT && raw[3] == INIT
    ensures Encoded(raw, m) == raw && Received(raw, m) == raw[2..]
  {
  }

  // -- The code's loops ----------------------------------------------------------------

  class PacketProcessor {
    var emultiE: Byte
    var emultiD: Byte

    constructor ()
      ensures emultiE == emultiD == 0
    {
      emultiE, emultiD := 0, 0;
    }

    method SetEMulti(e: Byte, d: Byte)
      modifies this
      ensures emultiE == e && emultiD == d
    {
      emultiE, emultiD := e, d;
    }

    method Encode(raw: seq<Byte>) returns (s: seq<Byte>)
      requires |raw| >= 4
      ensures s == Encoded(raw, emultiE)
    {
      if emultiE == 0 || (raw[2] == INIT && raw[3] == INIT) {
        return raw;
      }
      var str := Wind(raw, Multiple(emultiE));
      s := Interleave(str);
      s := SwapFrom2(s);
      assert s[..2] == str[..2];
      assert s[2..] == Mixed(str[2..]);
    }

    method Decode(str: seq<Byte>) returns (s: seq<Byte>)
      requires |str| >= 2
      ensures s == Decoded(str, emultiD)
    {
      if emultiD == 0 || (str[0] == INIT && str[1] == INIT) {
        return str;
      }
      s := Deinterleave(str);
      s := SwapFrom2(s);
      assert s == Unmixed(str);
      s := Wind(s, Multiple(emultiD));
    }

    /** The first half of str goes to the even places of the body, the rest backwards to the odd ones. */
    static method Interleave(str: seq<Byte>) returns (s: seq<Byte>)
      requires |str| >= 4
      ensures |s| == |str| && s[0] == str[0] && s[1] == str[1]
      ensures forall j :: 2 <= j < |s| ==> s[j] == FlipTop(str[2 + Slot(|s| - 2, j - 2)])
    {
      var length := |str|;
      var i, ii := 2, 2;
      s := str;
      while i < length
        invariant 2 <= i <= length + 1 && i == 2 * ii - 2
        invariant |s| == length && s[0] == str[0] && s[1] == str[1]
        invariant forall j :: 2 <= j < i && j % 2 == 0 && j < length ==>
          s[j] == FlipTop(str[2 + Slot(length - 2, j - 2)])
      {
        s := s[i := FlipTop(str[ii])];
        ii := ii + 1;
        i := i + 2;
      }
      i := length - 1;
      if length % 2 != 0 {
        i := i - 1;
      }
      while i >= 2
        invariant 1 <= i < length && i == 2 * (length - ii) + 1
        invariant |s| == length && s[0] == str[0] && s[1] == str[1]
        invariant forall j :: 2 <= j < length && (j % 2 == 0 || i < j) ==>
          s[j] == FlipTop(str[2 + Slot(length - 2, j - 2)])
      {
        s := s[i := FlipTop(str[ii])];
        ii := ii + 1;
        i := i - 2;
      }
    }

    /** The even places in order, then the odd places backwards. */
    static method Deinterleave(str: seq<Byte>) returns (s: seq<Byte>)
      requires |str| >= 2
      ensures |s| == |str|
      ensures forall k :: 0 <= k < |s| ==> s[k] == FlipTop(str[Place(|s|, k)])
    {
      var length := |str|;
      var i, ii := 0, 0;
      s := str;
      while i < length
        invariant 0 <= i <= length + 1 && i == 2 * ii && |s| == length
        invariant forall k :: 0 <= k < ii ==> 2 * k < length && s[k] == FlipTop(str[2 * k])
      {
        s := s[ii := FlipTop(str[i])];
        ii := ii + 1;
        i := i + 2;
      }
      assert forall k :: 0 <= k < ii ==> Place(length, k) == 2 * k;
      i := i - 1;
      if length % 2 != 0 {
        i := i - 2;
      }
      while i >= 0
        invariant -1 <= i < length && i == 2 * (length - 1 - ii) + 1 && 0 <= ii <= length <= 2 * ii
        invariant |s| == length
        invariant forall k :: 0 <= k < ii ==> s[k] == FlipTop(str[Place(length, k)])
        decreases i
      {
        assert Place(length, ii) == i;
        s := s[ii := FlipTop(str[i])];
        ii := ii + 1;
        i := i - 2;
      }
    }

    static method SwapFrom2(str: seq<Byte>) returns (s: seq<Byte>)
      ensures |s| == |str|
      ensures forall k :: 0 <= k < |s| ==> s[k] == if k < 2 then str[k] else Swap(str[k])
    {
      s := str;
      var i := 2;
      while i < |str|
        invariant 2 <= i && |s| == |str|
        invariant forall k :: 0 <= k < |s| ==> s[k] == if 2 <= k < i then Swap(str[k]) else str[k]
      {
        if s[i] == 128 {
          s := s[i := 0];
        } else if s[i] == 0 {
          s := s[i := 128];
        }
        i := i + 1;
      }
    }
  }
}
