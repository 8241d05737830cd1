/**
 Winding: every maximal run of elements of one kind is reversed where it stands, and
 all others stay (PacketProcessor::DickWinder in src/packet.cpp).
 */
module Winding {
  import opened Bytes

  predicate All<T>(s: seq<T>, kind: T -> bool) {
    forall k :: 0 <= k < |s| ==> kind(s[k])
  }

  /** No run goes on from a into b. */
  predicate Apart<T>(a: seq<T>, b: seq<T>, kind: T -> bool) {
    a == [] || b == [] || !kind(a[|a| - 1]) || !kind(b[0])
  }

  /** Winds s when the run seen so far, already reversed, is acc. */
  function WoundFrom<T>(acc: seq<T>, s: seq<T>, kind: T -> bool): (w: seq<T>)
    ensures |w| == |acc| + |s|
    decreases |s|
  {
    if s == [] then acc
    else if kind(s[0]) then WoundFrom([s[0]] + acc, s[1..], kind)
    else acc + [s[0]] + WoundFrom([], s[1..], kind)
  }

  function Wound<T>(s: seq<T>, kind: T -> bool): (w: seq<T>)
    ensures |w| == |s|
  {
    WoundFrom([], s, kind)
  }

  /** The loop of the code: a buffer for the current run, reversed when the run ends. */
  method Wind<T>(s: seq<T>, kind: T -> bool) returns (w: seq<T>)
    ensures w == Wound(s, kind)
  {
    w := [];
    var buffer := [];
    for i := 0 to |s|
      invariant w + WoundFrom(Reversed(buffer), s[i..], kind) == Wound(s, kind)
    {
      assert s[i..][1..] == s[i + 1..];
      if kind(s[i]) {
        assert Reversed(buffer + [s[i]]) == [s[i]] + Reversed(buffer);
        buffer := buffer + [s[i]];
      } else {
        if |buffer| > 0 {
          w := w + Reversed(buffer);
          buffer := [];
        }
        w := w + [s[i]];
      }
    }
    if |buffer| > 0 {
      w := w + Reversed(buffer);
    }
  }

  /** A run that ends with the string or before an element of the other kind. */
  lemma {:induction false} WoundRun<T>(acc: seq<T>, run: seq<T>, rest: seq<T>, kind: T -> bool)
    requires All(run, kind) && (rest == [] || !kind(rest[0]))
    ensures WoundFrom(acc, run + rest, kind) == Reversed(run) + acc + Wound(rest, kind)
    decreases |run|
  {
    if run == [] {
      assert run + rest == rest;
      assert Reversed(run) + acc == acc;
    } else {
      assert (run + rest)[1..] == run[1..] + rest;
      WoundRun([run[0]] + acc, run[1..], rest, kind);
      assert Reversed(run) == Reversed(run[1..]) + [run[0]];
    }
  }

  /** Strings with no run across their border are wound one by one. */
  lemma {:induction false} WoundFromSplits<T>(acc: seq<T>, a: seq<T>, b: seq<T>, kind: T -> bool)
    requires Apart(a, b, kind) && (a == [] ==> acc == [] || b == [] || !kind(b[0]))
    ensures WoundFrom(acc, a + b, kind) == WoundFrom(acc, a, kind) + Wound(b, kind)
    decreases |a|
  {
    if a == [] {
      assert a + b == b;
    } else {
      assert (a + b)[1..] == a[1..] + b;
      WoundFromSplits(if kind(a[0]) then [a[0]] + acc else [], a[1..], b, kind);
    }
  }

  lemma WoundSplits<T>(a: seq<T>, b: seq<T>, kind: T -> bool)
    requires Apart(a, b, kind)
    ensures Wound(a + b, kind) == Wound(a, kind) + Wound(b, kind)
  {
    WoundFromSplits([], a, b, kind);
  }

  lemma WoundOther<T>(c: T, rest: seq<T>, kind: T -> bool)
    requires !kind(c)
    ensures Wound([c] + rest, kind) == [c] + Wound(rest, kind)
  {
    assert ([c] + rest)[1..] == rest;
  }

  lemma {:induction false} WoundFromTwice<T>(acc: seq<T>, s: seq<T>, kind: T -> bool)
    requires All(acc, kind)
    ensures Wound(WoundFrom(acc, s, kind), kind) == Reversed(acc) + s
    decreases |s|
  {
    if s == [] {
      WoundRun([], acc, [], kind);
      assert acc + [] == acc;
    } else if kind(s[0]) {
      var more := [s[0]] + acc;
      WoundFromTwice(more, s[1..], kind);
      assert Reversed(more) == Reversed(acc) + [s[0]];
    } else {
      var rest := WoundFrom([], s[1..], kind);
      assert WoundFrom(acc, s, kind) == acc + ([s[0]] + rest);
      WoundRun([], acc, [s[0]] + rest, kind);
      WoundOther(s[0], rest, kind);
      WoundFromTwice([], s[1..], kind);
    }
  }

  /** Winding twice gives the string back. */
  lemma WoundTwice<T>(s: seq<T>, kind: T -> bool)
    ensures Wound(Wound(s, kind), kind) == s
  {
    WoundFromTwice([], s, kind);
  }

  /** A string without two neighbours of the kind is not changed. */
  lemma {:induction false} WoundLoose<T>(s: seq<T>, kind: T -> bool)
    requires forall k :: 0 < k < |s| ==> !kind(s[k - 1]) || !kind(s[k])
    ensures Wound(s, kind) == s
    decreases |s|
  {
    if s != [] {
      assert s == s[..1] + s[1..];
      WoundSplits(s[..1], s[1..], kind);
      WoundLoose(s[1..], kind);
      assert WoundFrom([], s[..1], kind) == s[..1];
    }
  }
}
