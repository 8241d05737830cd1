/**
 What a stream of length-prefixed frames means, whatever its elements and however two
 of them announce a length; and the parser state of EOClient::Tick (src/eoclient.cpp).
 */
module FrameSpec {
  // -- What a byte stream means --------------------------------------------------------

  /** Whether s starts with a whole frame of positive length. */
  predicate HasFrame<T>(s: seq<T>, len: (T, T) -> nat) {
    |s| >= 2 && len(s[0], s[1]) > 0 && |s| >= 2 + len(s[0], s[1])
  }

  /** The payloads of the complete frames of s; nothing follows a frame of length 0. */
  function Frames<T>(s: seq<T>, len: (T, T) -> nat): seq<seq<T>> {
    if !HasFrame(s, len) then [] else
      var end := 2 + len(s[0], s[1]);
      [s[2..end]] + Frames(s[end..], len)
  }

  /** How many bytes of s belong to complete frames. */
  function Cut<T>(s: seq<T>, len: (T, T) -> nat): (n: nat)
    ensures n <= |s|
  {
    if !HasFrame(s, len) then 0 else
      var end := 2 + len(s[0], s[1]);
      end + Cut(s[end..], len)
  }

  function Tail<T>(s: seq<T>, len: (T, T) -> nat): seq<T> {
    s[Cut(s, len)..]
  }

  lemma TailFirst<T>(s: seq<T>, len: (T, T) -> nat)
    requires HasFrame(s, len)
    ensures Tail(s, len) == Tail(s[2 + len(s[0], s[1])..], len)
  {
    var end := 2 + len(s[0], s[1]);
    assert s[end..][Cut(s[end..], len)..] == s[Cut(s, len)..];
  }

  /** Later bytes only add frames, and only the unfinished tail matters for them. */
  lemma {:induction false} FramesSplit<T>(s: seq<T>, t: seq<T>, len: (T, T) -> nat)
    ensures Frames(s + t, len) == Frames(s, len) + Frames(Tail(s, len) + t, len)
    ensures Tail(s + t, len) == Tail(Tail(s, len) + t, len)
    decreases |s|
  {
    if HasFrame(s, len) {
      var end := 2 + len(s[0], s[1]);
      var u := s + t;
      assert u[2..end] == s[2..end] && u[end..] == s[end..] + t;
      FramesSplit(s[end..], t, len);
      TailFirst(s, len);
      TailFirst(u, len);
    } else {
      assert Tail(s, len) == s;
    }
  }

  // -- The parser state ----------------------------------------------------------------

  datatype PacketState = ReadLen1 | ReadLen2 | ReadData

  datatype Parser<T> = Parser(state: PacketState, raw1: T, raw2: T, length: nat, data: seq<T>)

  /** The parser stands behind exactly the bytes s, having executed the frames of s. */
  ghost predicate Stands<T>(p: Parser<T>, executed: seq<seq<T>>, s: seq<T>, len: (T, T) -> nat) {
    && executed == Frames(s, len)
    && match p.state
       case ReadLen1 => Tail(s, len) == [] && p.data == []
       case ReadLen2 => Tail(s, len) == [p.raw1] && p.data == []
       case ReadData =>
         && Tail(s, len) == [p.raw1, p.raw2] + p.data
         && p.length + |p.data| == len(p.raw1, p.raw2)
         && (p.length == 0 ==> p.data == [])
  }

  lemma StandsLen1<T>(p: Parser<T>, executed: seq<seq<T>>, s: seq<T>, c: T, len: (T, T) -> nat)
    requires p.state.ReadLen1? && Stands(p, executed, s, len)
    ensures Stands(p.(raw1 := c, state := ReadLen2), executed, s + [c], len)
  {
    FramesSplit(s, [c], len);
    assert Tail([c], len) == [c] && [] + [c] == [c];
  }

  lemma StandsLen2<T>(p: Parser<T>, executed: seq<seq<T>>, s: seq<T>, c: T, len: (T, T) -> nat)
    requires p.state.ReadLen2? && Stands(p, executed, s, len)
    ensures Stands(p.(raw2 := c, length := len(p.raw1, c), state := ReadData), executed, s + [c], len)
  {
    FramesSplit(s, [c], len);
    assert [p.raw1] + [c] == [p.raw1, c] + [];
    assert !HasFrame([p.raw1, c], len);
  }

  lemma StandsMore<T>(p: Parser<T>, executed: seq<seq<T>>, s: seq<T>, more: seq<T>, len: (T, T) -> nat)
    requires p.state.ReadData? && Stands(p, executed, s, len) && |more| < p.length
    ensures Stands(p.(data := p.data + more, length := p.length - |more|), executed, s + more, len)
  {
    FramesSplit(s, more, len);
    var u := [p.raw1, p.raw2] + (p.data + more);
    assert Tail(s, len) + more == u;
    assert !HasFrame(u, len);
  }

  lemma StandsFrame<T>(p: Parser<T>, executed: seq<seq<T>>, s: seq<T>, more: seq<T>, len: (T, T) -> nat)
    requires p.state.ReadData? && Stands(p, executed, s, len) && 0 < |more| == p.length
    ensures Stands(p.(data := [], length := 0, state := ReadLen1), executed + [p.data + more], s + more, len)
  {
    FramesSplit(s, more, len);
    var u := [p.raw1, p.raw2] + (p.data + more);
    assert Tail(s, len) + more == u;
    assert u[2..|u|] == p.data + more && u[|u|..] == [];
    assert Frames(u, len) == [p.data + more] + Frames([], len);
  }
}
