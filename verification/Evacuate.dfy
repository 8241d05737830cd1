/**
 Map evacuation: Map::Evacuate and map_evacuate of src/map.cpp, driven by an event of the timer
 whose lifetime is the number of steps.
 */
module Evacuate {
  import opened Timer

  /** One accepted request: its steps, and what was done for it. */
  datatype Request = Request(step: nat, calls: nat, evacuations: nat, frees: nat)

  predicate Served(r: Request) {
    r.calls == r.step + 1 && r.evacuations == 1 && r.frees == 1
  }

  /** One more call; the last one evacuates and frees. */
  function Called(r: Request, last: bool): Request {
    Request(r.step, r.calls + 1, r.evacuations + (if last then 1 else 0), r.frees + (if last then 1 else 0))
  }

  const ADMIN_GUIDE := 1

  datatype Character = Character(name: nat, access: int)

  class Map {
    var evacuateLock: bool
    var alive: bool         // the record of the evacuation is allocated
    var step: int           // its step field
    var event: TimeEvent    // the event of the last accepted request
    var registered: bool
    var current: Request
    var finished: seq<Request>

    /** A registered event will fire once more than the record has steps left; nothing else uses the record. */
    ghost predicate Valid()
      reads this
    {
      && evacuateLock == alive == registered
      && (forall i :: 0 <= i < |finished| ==> Served(finished[i]))
      && (registered ==>
        && event.managed && event.lifetime > 0 && step == event.lifetime - 1
        && current.calls == current.step + 1 - event.lifetime
        && current.evacuations == 0 && current.frees == 0)
    }

    constructor ()
      ensures Valid() && finished == [] && !evacuateLock
    {
      evacuateLock, alive, step, registered := false, false, 0, false;
      event := TimeEvent(0.0, 0.0, 0, false);
      current, finished := Request(0, 0, 0, 0), [];
    }

    /** The callback. Its record must still be allocated. */
    method MapEvacuate(characters: seq<Character>) returns (jailed: seq<Character>)
      requires alive
      modifies this`alive, this`step, this`evacuateLock, this`current
      ensures alive == (old(step) > 0) && evacuateLock == (alive && old(evacuateLock))
      ensures step == if alive then old(step) - 1 else old(step)
      ensures current == Called(old(current), !alive)
      ensures forall c :: c in jailed <==> !alive && c in characters && c.access < ADMIN_GUIDE
    {
      jailed := [];
      current := current.(calls := current.calls + 1);
      if step > 0 {
        step := step - 1;
      } else {
        for i := 0 to |characters|
          invariant forall c :: c in jailed <==> c in characters[..i] && c.access < ADMIN_GUIDE
        {
          if characters[i].access < ADMIN_GUIDE {
            jailed := jailed + [characters[i]];
          }
        }
        current := current.(evacuations := current.evacuations + 1);
        evacuateLock, alive := false, false;
        current := current.(frees := current.frees + 1);
      }
    }

    /** A request; steps is the configured length divided by the configured tick. */
    method Evacuate(steps: nat, now: real, tick: real, characters: seq<Character>) returns (accepted: bool)
      requires Valid()
      modifies this
      ensures Valid() && (accepted <==> !old(evacuateLock))
      ensures !accepted ==> finished == old(finished) && current == old(current) && event == old(event)
      ensures !accepted ==> evacuateLock
      ensures accepted ==> evacuateLock == (steps > 0) && event.lifetime == steps
      ensures accepted ==> finished == old(finished) + (if steps == 0 then [Request(0, 1, 1, 1)] else [])
      ensures accepted && steps > 0 ==> current == Request(steps, 1, 0, 0)
    {
      if evacuateLock {
        return false;
      }
      evacuateLock := true;
      alive, step := true, steps;
      current := Request(steps, 0, 0, 0);
      // Timer::Register ignores an event without lifetime
      registered := steps != 0;
      event := TimeEvent(tick, now, steps, registered);
      var _ := MapEvacuate(characters);
      if !alive {
        finished := finished + [current];
      }
      accepted := true;
    }

    /** The timer fires the event. */
    method Fire(characters: seq<Character>)
      requires Valid() && registered
      modifies this
      ensures Valid()
      ensures evacuateLock == (old(event.lifetime) > 1) && event.lifetime == old(event.lifetime) - 1
      ensures current == Called(old(current), !evacuateLock)
      ensures finished == old(finished) + (if evacuateLock then [] else [current])
    {
      event := Advanced(event);
      registered := event.managed;
      var _ := MapEvacuate(characters);
      if !alive {
        finished := finished + [current];
      }
    }
  }

  datatype Op = RequestOp(steps: nat) | FireOp

  /** The steps of the requests that are accepted in a run, given the firings still to come. */
  function Accepted(ops: seq<Op>, left: nat): seq<nat> {
    if ops == [] then []
    else match ops[0]
      case FireOp => Accepted(ops[1..], if left > 0 then left - 1 else 0)
      case RequestOp(steps) =>
        if left > 0 then Accepted(ops[1..], left) else [steps] + Accepted(ops[1..], steps)
  }

  function Steps(rs: seq<Request>): (s: seq<nat>)
    ensures |s| == |rs| && forall i :: 0 <= i < |rs| ==> s[i] == rs[i].step
  {
    seq(|rs|, i requires 0 <= i < |rs| => rs[i].step)
  }

  lemma StepsMore(rs: seq<Request>, r: Request)
    ensures Steps(rs + [r]) == Steps(rs) + [r.step]
  {
  }

  /** The steps of all requests accepted so far. */
  function Log(m: Map): seq<nat>
    reads m
  {
    if m.evacuateLock then Steps(m.finished) + [m.current.step] else Steps(m.finished)
  }

  /** The calls that the event of the request being served still has to make. */
  function Left(m: Map): nat
    requires m.Valid()
    reads m
  {
    if m.registered then m.event.lifetime else 0
  }

  method Step(m: Map, op: Op, characters: seq<Character>)
    requires m.Valid()
    modifies m
    ensures m.Valid()
    ensures Log(m) == old(Log(m)) + (if op.RequestOp? && old(Left(m)) == 0 then [op.steps] else [])
    ensures Left(m) == match op {
      case FireOp => if old(Left(m)) > 0 then old(Left(m)) - 1 else 0
      case RequestOp(steps) => if old(Left(m)) > 0 then old(Left(m)) else steps
    }
  {
    ghost var was := m.finished;
    assert was + [] == was && Log(m) + [] == Log(m);
    match op {
      case RequestOp(steps) =>
        var accepted := m.Evacuate(steps, 0.0, 1.0, characters);
        if accepted && steps == 0 {
          StepsMore(was, Request(0, 1, 1, 1));
        }
      case FireOp =>
        if m.registered {
          m.Fire(characters);
          if !m.registered {
            StepsMore(was, m.current);
          }
        }
    }
  }

  /**
   Any run of requests and firings: the accepted requests are served in order, each with one call more
   than it has steps, one evacuation and one free; the lock is held exactly while one is being served.
   */
  method Run(m: Map, ops: seq<Op>, characters: seq<Character>)
    requires m.Valid()
    modifies m
    ensures m.Valid()
    ensures forall i :: 0 <= i < |m.finished| ==> Served(m.finished[i])
    ensures Log(m) == old(Log(m)) + Accepted(ops, old(Left(m)))
    decreases |ops|
  {
    ghost var before := Log(m);
    ghost var left := Left(m);
    if ops == [] {
      assert before + [] == before;
    } else {
      Step(m, ops[0], characters);
      var first := if ops[0].RequestOp? && left == 0 then [ops[0].steps] else [];
      var rest := Accepted(ops[1..], Left(m));
      assert before + first + rest == before + (first + rest);
      assert first + rest == Accepted(ops, left);
      Run(m, ops[1..], characters);
    }
  }
}
