/**
 The event timer of src/timer.cpp: a registered set, a snapshot that a tick runs over, finite
 lifetimes, and callbacks that register, unregister and delete events while the tick runs.
 Events are numbered in the order of their allocation instead of being addressed.
 */
module Timer {
  const FOREVER := -1

  type EventId = nat

  /** managed: the manager field of the source points to the timer. */
  datatype TimeEvent = TimeEvent(speed: real, lasttime: real, lifetime: int, managed: bool)

  /**
   Where an event stands: never registered, registered, out of the timer since its own firing, taken out by
   Unregister from anywhere else, deleted, or deleted in its own firing.
   */
  datatype Standing = Fresh | Registered | LeftInside | Unregistered | Deleted | DeletedInside

  /** What has happened to an event: how often it fired in all, when it was last registered, and how often since. */
  datatype History = History(lifetime: int, firings: nat, registered: real, since: nat, standing: Standing)

  /** An event with its history and the number of times it was freed. */
  datatype Slot = Slot(event: TimeEvent, history: History, frees: nat)

  /** What a callback does to the timer. */
  datatype Action =
    | DoNew(speed: real, lifetime: int)
    | DoRegister(id: EventId, at: real)
    | DoUnregister(id: EventId)
    | DoDelete(id: EventId)

  /** An event one firing later, before the callback runs: the last firing unregisters. */
  function Advanced(e: TimeEvent): TimeEvent {
    var life := if e.lifetime != FOREVER then e.lifetime - 1 else FOREVER;
    TimeEvent(e.speed, e.lasttime + e.speed, life, if life == 0 then false else e.managed)
  }

  predicate Due(e: TimeEvent, now: real) {
    e.lasttime + e.speed < now
  }

  /** n periods of an event. */
  ghost function Elapsed(n: nat, speed: real): real {
    if n == 0 then 0.0 else Elapsed(n - 1, speed) + speed
  }

  lemma {:induction false} ElapsedIsProduct(n: nat, speed: real)
    ensures Elapsed(n, speed) == n as real * speed
  {
    if n != 0 {
      ElapsedIsProduct(n - 1, speed);
      assert n as real * speed == (n - 1) as real * speed + speed;
    }
  }

  // -- What the operations do ----------------------------------------------------------

  /** All events that were ever allocated, and the registered ones. */
  datatype State = State(slots: seq<Slot>, timers: set<EventId>)

  predicate Live(st: State, id: EventId) {
    id < |st.slots| && st.slots[id].frees == 0
  }

  function Allocated(st: State, speed: real, lifetime: int): State {
    st.(slots := st.slots + [Slot(TimeEvent(speed, 0.0, lifetime, false), History(lifetime, 0, 0.0, 0, Fresh), 0)])
  }

  /** An event whose lifetime is used up stays unregistered. */
  function Enrolled(st: State, id: EventId, at: real): State
    requires id < |st.slots|
  {
    var s := st.slots[id];
    if s.event.lifetime == 0 then st
    else
      var h := s.history.(registered := at, since := 0, standing := Registered);
      State(st.slots[id := Slot(s.event.(lasttime := at, managed := true), h, s.frees)], st.timers + {id})
  }

  /** self is the event that is being fired, if there is one. */
  function Withdrawn(st: State, id: EventId, self: int): State
    requires id < |st.slots|
  {
    var s := st.slots[id];
    var h := s.history.(standing := if id == self then LeftInside else Unregistered);
    State(st.slots[id := Slot(s.event.(managed := false), h, s.frees)], st.timers - {id})
  }

  /** The destructor of an event takes it out of the timer before it is freed. */
  function Erased(st: State, id: EventId, self: int): State
    requires id < |st.slots|
  {
    var s := st.slots[id];
    var h := s.history.(standing := if id == self then DeletedInside else Deleted);
    State(st.slots[id := Slot(s.event.(managed := false), h, s.frees + 1)],
          if s.event.managed then st.timers - {id} else st.timers)
  }

  /** Numbers of events that are not allocated, or are freed, are not used by a program. */
  function Done(st: State, action: Action, self: int): State {
    match action
    case DoNew(speed, lifetime) => if lifetime >= FOREVER then Allocated(st, speed, lifetime) else st
    case DoRegister(id, at) => if Live(st, id) then Enrolled(st, id, at) else st
    case DoUnregister(id) => if Live(st, id) then Withdrawn(st, id, self) else st
    case DoDelete(id) => if Live(st, id) then Erased(st, id, self) else st
  }

  function DoneAll(st: State, actions: seq<Action>, self: int): (r: State)
    ensures |r.slots| >= |st.slots|
  {
    if actions == [] then st
    else Done(DoneAll(st, actions[..|actions| - 1], self), actions[|actions| - 1], self)
  }

  /** The event is advanced, and unregistered when its lifetime ends. */
  function Struck(st: State, id: EventId): State
    requires id < |st.slots|
  {
    var s := st.slots[id];
    var e := Advanced(s.event);
    var last := e.lifetime == 0;
    var h := s.history.(firings := s.history.firings + 1, since := s.history.since + 1,
                        standing := if last then LeftInside else s.history.standing);
    State(st.slots[id := Slot(e, h, s.frees)], if last then st.timers - {id} else st.timers)
  }

  /**
   One firing: the event is advanced and called, and it is freed if it is no longer managed, even if its callback
   has deleted it.
   */
  function Fired(st: State, id: EventId, actions: seq<Action>): (r: State)
    requires id < |st.slots|
    ensures |r.slots| >= |st.slots|
  {
    var t := DoneAll(Struck(st, id), actions, id);
    var s := t.slots[id];
    if s.event.managed then t else t.(slots := t.slots[id := s.(frees := s.frees + 1)])
  }

  predicate Fires(st: State, id: EventId, now: real) {
    id in st.timers && id < |st.slots| && Due(st.slots[id].event, now)
  }

  function Callback(callbacks: seq<seq<Action>>, k: nat): seq<Action> {
    if k < |callbacks| then callbacks[k] else []
  }

  /** A tick over a snapshot in some order: the state after it, and the events fired. The k-th runs callback k. */
  function Turns(st: State, order: seq<EventId>, now: real, callbacks: seq<seq<Action>>): (r: (State, seq<EventId>))
    ensures |r.0.slots| >= |st.slots|
  {
    if order == [] then (st, [])
    else
      var (t, fired) := Turns(st, order[..|order| - 1], now, callbacks);
      var id := order[|order| - 1];
      if Fires(t, id, now) then (Fired(t, id, Callback(callbacks, |fired|)), fired + [id]) else (t, fired)
  }

  // -- Laws of the operations ----------------------------------------------------------

  /** How often an event has been freed; settled is false while it is being fired. */
  function Frees(standing: Standing, settled: bool): nat {
    match standing
    case Fresh => 0
    case Registered => 0
    case Unregistered => 0
    case LeftInside => if settled then 1 else 0
    case Deleted => 1
    case DeletedInside => if settled then 2 else 1
  }

  /** An event agrees with its history. */
  ghost predicate SlotOk(s: Slot, registered: bool, settled: bool) {
    var e, h := s.event, s.history;
    && (registered <==> e.managed) && (registered <==> h.standing.Registered?)
    && s.frees == Frees(h.standing, settled)
    && (!settled ==> !h.standing.Fresh? && !h.standing.Unregistered? && !h.standing.Deleted?)
    && (e.lifetime == 0 && h.firings > 0 ==> h.standing.LeftInside? || h.standing.DeletedInside?)
    && h.since <= h.firings
    && (if h.lifetime == FOREVER then e.lifetime == FOREVER
        else h.firings <= h.lifetime && e.lifetime == h.lifetime - h.firings)
    && (registered ==> e.lifetime != 0 && e.lasttime == h.registered + Elapsed(h.since, e.speed))
  }

  ghost predicate Ok(st: State, self: int) {
    && self < |st.slots| && (forall id :: id in st.timers ==> id < |st.slots|)
    && (forall id :: 0 <= id < |st.slots| ==> SlotOk(st.slots[id], id in st.timers, id != self))
  }

  const NOBODY := -1

  /** What may happen to an event that fires n times, n being 0 or 1. One that is freed is not touched again. */
  ghost predicate SlotMoves(s: Slot, t: Slot, n: nat) {
    && t.history.lifetime == s.history.lifetime
    && t.history.firings == s.history.firings + n
    && s.frees <= t.frees && (s.frees > 0 ==> t == s)
    && t.event.lifetime == (if n == 1 && s.event.lifetime != FOREVER then s.event.lifetime - 1 else s.event.lifetime)
    && (n == 1 && t.event.lifetime == 0 ==> t.frees > 0)
  }

  /** From st to t exactly the events in fired have fired, each once, and new ones have not. */
  ghost predicate Moves(st: State, t: State, fired: set<EventId>) {
    && |st.slots| <= |t.slots|
    && (forall id :: 0 <= id < |st.slots| ==> SlotMoves(st.slots[id], t.slots[id], if id in fired then 1 else 0))
    && (forall id :: |st.slots| <= id < |t.slots| ==> t.slots[id].history.firings == 0)
  }

  lemma DoneKeeps(st: State, action: Action, self: int)
    requires Ok(st, self)
    ensures Ok(Done(st, action, self), self) && Moves(st, Done(st, action, self), {})
  {
  }

  lemma {:induction false} DoneAllKeeps(st: State, actions: seq<Action>, self: int)
    requires Ok(st, self)
    ensures Ok(DoneAll(st, actions, self), self) && Moves(st, DoneAll(st, actions, self), {})
  {
    if actions != [] {
      DoneAllKeeps(st, actions[..|actions| - 1], self);
      DoneKeeps(DoneAll(st, actions[..|actions| - 1], self), actions[|actions| - 1], self);
    }
  }

  lemma StruckKeeps(st: State, id: EventId)
    requires Ok(st, NOBODY) && id in st.timers
    ensures Ok(Struck(st, id), id)
  {
  }

  lemma FiredKeeps(st: State, id: EventId, actions: seq<Action>)
    requires Ok(st, NOBODY) && id in st.timers
    ensures Ok(Fired(st, id, actions), NOBODY) && Moves(st, Fired(st, id, actions), {id})
  {
    StruckKeeps(st, id);
    DoneAllKeeps(Struck(st, id), actions, id);
  }

  predicate Distinct(order: seq<EventId>) {
    forall i, j :: 0 <= i < j < |order| ==> order[i] != order[j]
  }

  /** One tick with arbitrary callbacks: the fired events are of the snapshot, each fires once, the others do not. */
  lemma {:induction false} TurnsKeep(st: State, order: seq<EventId>, now: real, callbacks: seq<seq<Action>>)
    requires Ok(st, NOBODY) && Distinct(order) && forall k :: 0 <= k < |order| ==> order[k] < |st.slots|
    ensures var (t, fired) := Turns(st, order, now, callbacks);
      && Ok(t, NOBODY) && Moves(st, t, set id | id in fired)
      && forall id :: id in fired ==> id in order
  {
    if order != [] {
      var n := |order| - 1;
      TurnsKeep(st, order[..n], now, callbacks);
      var (t, fired) := Turns(st, order[..n], now, callbacks);
      assert order[n] !in fired;
      if Fires(t, order[n], now) {
        FiredKeeps(t, order[n], Callback(callbacks, |fired|));
      }
    }
  }

  lemma {:induction false} FiredWithin(st: State, order: seq<EventId>, now: real, callbacks: seq<seq<Action>>)
    ensures forall id :: id in Turns(st, order, now, callbacks).1 ==> id in order
  {
    if order != [] {
      FiredWithin(st, order[..|order| - 1], now, callbacks);
    }
  }

  /**
   An event of the snapshot fires exactly if it is registered and its next time has passed when its turn comes,
   after whatever the callbacks of the events before it have done.
   */
  lemma {:induction false} FiresExactly(st: State, order: seq<EventId>, k: nat, now: real, callbacks: seq<seq<Action>>)
    requires Distinct(order) && k < |order|
    ensures var t := Turns(st, order[..k], now, callbacks).0;
      order[k] in Turns(st, order, now, callbacks).1 <==>
        order[k] in t.timers && order[k] < |t.slots|
        && t.slots[order[k]].event.lasttime + t.slots[order[k]].event.speed < now
  {
    var n := |order| - 1;
    FiredWithin(st, order[..n], now, callbacks);
    if k < n {
      assert order[..n][..k] == order[..k];
      FiresExactly(st, order[..n], k, now, callbacks);
    }
  }

  /** Without callbacks the turns of others do not matter. */
  lemma {:induction false} QuietTurns(st: State, order: seq<EventId>, now: real, id: EventId)
    requires id < |st.slots| && id !in order
    ensures var t := Turns(st, order, now, []).0;
      |t.slots| == |st.slots| && t.slots[id] == st.slots[id] && (id in t.timers <==> id in st.timers)
  {
    if order != [] {
      assert order == order[..|order| - 1] + [order[|order| - 1]];
      QuietTurns(st, order[..|order| - 1], now, id);
    }
  }

  /** Without callbacks exactly those fire whose next time has passed. */
  lemma QuietExactly(st: State, order: seq<EventId>, k: nat, now: real)
    requires Distinct(order) && k < |order| && order[k] < |st.slots|
    ensures var e := st.slots[order[k]].event;
      order[k] in Turns(st, order, now, []).1 <==> order[k] in st.timers && e.lasttime + e.speed < now
  {
    FiresExactly(st, order, k, now, []);
    QuietTurns(st, order[..k], now, order[k]);
  }

  // -- The timer -----------------------------------------------------------------------

  /** An order of a set. */
  predicate Orders(order: seq<EventId>, ids: set<EventId>) {
    Distinct(order) && (forall k :: 0 <= k < |order| ==> order[k] in ids) && (forall id :: id in ids ==> id in order)
  }

  class Timer {
    var slots: seq<Slot>
    var timers: set<EventId>
    var execlist: set<EventId>
    var changed: bool

    function Now(): State
      reads this
    {
      State(slots, timers)
    }

    /** Between ticks the snapshot can only be out of date if it is marked so. */
    ghost predicate Valid()
      reads this
    {
      Ok(Now(), NOBODY) && (!changed ==> execlist == timers)
    }

    constructor ()
      ensures Valid() && slots == [] && timers == {}
    {
      slots, timers, execlist, changed := [], {}, {}, true;
    }

    method New(speed: real, lifetime: int) returns (id: EventId)
      requires lifetime >= FOREVER
      modifies `slots
      ensures id == |old(slots)| && Now() == Allocated(old(Now()), speed, lifetime)
    {
      id := |slots|;
      slots := slots + [Slot(TimeEvent(speed, 0.0, lifetime, false), History(lifetime, 0, 0.0, 0, Fresh), 0)];
    }

    method Register(id: EventId, at: real)
      requires id < |slots|
      modifies `slots, `timers, `changed
      ensures Now() == Enrolled(old(Now()), id, at)
      ensures (old(changed) ==> changed) && (!changed ==> timers == old(timers))
    {
      var s := slots[id];
      if s.event.lifetime == 0 {
        return;
      }
      var h := s.history.(registered := at, since := 0, standing := Registered);
      slots := slots[id := s.(event := s.event.(lasttime := at, managed := true), history := h)];
      changed := true;
      timers := timers + {id};
    }

    /** self only goes into the history. */
    method Unregister(id: EventId, self: int)
      requires id < |slots|
      modifies `slots, `timers, `changed
      ensures Now() == Withdrawn(old(Now()), id, self) && changed
    {
      var s := slots[id];
      var h := s.history.(standing := if id == self then LeftInside else Unregistered);
      changed := true;
      timers := timers - {id};
      slots := slots[id := s.(event := s.event.(managed := false), history := h)];
    }

    /** The destructor of an event, and the end of its memory. */
    method Delete(id: EventId, self: int)
      requires id < |slots|
      modifies `slots, `timers, `changed
      ensures Now() == Erased(old(Now()), id, self)
      ensures (old(changed) ==> changed) && (!changed ==> timers == old(timers))
    {
      if slots[id].event.managed {
        Unregister(id, self);
      }
      var s := slots[id];
      var h := s.history.(standing := if id == self then DeletedInside else Deleted);
      slots := slots[id := Slot(s.event, h, s.frees + 1)];
    }

    /** An arbitrary callback. */
    method RunCallback(actions: seq<Action>, self: int)
      modifies `slots, `timers, `changed
      ensures Now() == DoneAll(old(Now()), actions, self)
      ensures (old(changed) ==> changed) && (!changed ==> timers == old(timers))
    {
      for i := 0 to |actions|
        invariant Now() == DoneAll(old(Now()), actions[..i], self)
        invariant (old(changed) ==> changed) && (!changed ==> timers == old(timers))
      {
        assert actions[..i + 1][..i] == actions[..i];
        match actions[i] {
          case DoNew(speed, lifetime) =>
            if lifetime >= FOREVER {
              var _ := New(speed, lifetime);
            }
          case DoRegister(id, at) =>
            if Live(Now(), id) {
              Register(id, at);
            }
          case DoUnregister(id) =>
            if Live(Now(), id) {
              Unregister(id, self);
            }
          case DoDelete(id) =>
            if Live(Now(), id) {
              Delete(id, self);
            }
        }
      }
      assert actions[..|actions|] == actions;
    }

    /** One due event of the snapshot: it is advanced, called, and freed if it is no longer managed. */
    method Fire(id: EventId, actions: seq<Action>)
      requires id < |slots|
      modifies `slots, `timers, `changed
      ensures Now() == Fired(old(Now()), id, actions)
      ensures (old(changed) ==> changed) && (!changed ==> timers == old(timers))
    {
      var s := slots[id];
      var e := Advanced(s.event);
      var h := s.history.(firings := s.history.firings + 1, since := s.history.since + 1);
      slots := slots[id := s.(event := e, history := h)];
      if e.lifetime == 0 {
        slots := slots[id := s.(event := e, history := h.(standing := LeftInside))];
        timers := timers - {id};
        changed := true;
      }
      assert Now() == Struck(old(Now()), id);
      RunCallback(actions, id);
      if !slots[id].event.managed {
        slots := slots[id := slots[id].(frees := slots[id].frees + 1)];
      }
    }

    /** One tick at time now, over the snapshot in some order; the k-th event that fires runs the k-th callback. */
    method Tick(now: real, callbacks: seq<seq<Action>>) returns (fired: seq<EventId>, ghost order: seq<EventId>)
      requires Valid()
      modifies this
      ensures Valid() && Orders(order, old(timers))
      ensures (Now(), fired) == Turns(old(Now()), order, now, callbacks)
    {
      if changed {
        execlist := timers;
        changed := false;
      }
      fired, order := [], [];
      var todo := execlist;
      while todo != {}
        invariant todo <= execlist == old(timers) && (!changed ==> timers == execlist)
        invariant Orders(order, execlist - todo)
        invariant (Now(), fired) == Turns(old(Now()), order, now, callbacks)
        decreases todo
      {
        var id :| id in todo;
        todo := todo - {id};
        assert (order + [id])[..|order|] == order;
        order := order + [id];
        if id in timers && Due(slots[id].event, now) {
          Fire(id, Callback(callbacks, |fired|));
          fired := fired + [id];
        }
      }
      TurnsKeep(old(Now()), order, now, callbacks);
    }

    /** The destructor frees everything that is still registered. */
    method Destroy()
      requires Valid()
      modifies this
      ensures timers == {} && |slots| == |old(slots)|
      ensures forall id :: 0 <= id < |slots| ==> slots[id] == Destroyed(old(slots)[id], id in old(timers))
    {
      while timers != {}
        invariant timers <= old(timers) && |slots| == |old(slots)|
        invariant forall id :: 0 <= id < |slots| ==> slots[id] == Destroyed(old(slots)[id], id in old(timers) - timers)
        decreases timers
      {
        var id :| id in timers;
        timers := timers - {id};
        slots := slots[id := slots[id].(event := slots[id].event.(managed := false), frees := slots[id].frees + 1)];
      }
    }
  }

  function Destroyed(s: Slot, registered: bool): Slot {
    if registered then s.(event := s.event.(managed := false), frees := s.frees + 1) else s
  }

  // -- Whole runs ----------------------------------------------------------------------

  datatype Op = Act(action: Action) | TickAt(now: real, callbacks: seq<seq<Action>>)

  const EMPTY := State([], {})

  /** The state after a run, the snapshots being taken in the given orders, one for each operation. */
  function Life(ops: seq<Op>, orders: seq<seq<EventId>>): State
    requires |orders| == |ops|
  {
    if ops == [] then EMPTY
    else
      var n := |ops| - 1;
      var st := Life(ops[..n], orders[..n]);
      match ops[n]
      case Act(action) => Done(st, action, NOBODY)
      case TickAt(now, callbacks) => Turns(st, orders[n], now, callbacks).0
  }

  /** Every snapshot is the set of events registered at its tick. */
  ghost predicate Snapshots(ops: seq<Op>, orders: seq<seq<EventId>>) {
    |orders| == |ops| && (ops != [] ==>
      var n := |ops| - 1;
      Snapshots(ops[..n], orders[..n]) && (ops[n].TickAt? ==> Orders(orders[n], Life(ops[..n], orders[..n]).timers)))
  }

  /** How many events the executed actions allocate. */
  function News(actions: seq<Action>): nat {
    if actions == [] then 0
    else
      var a := actions[|actions| - 1];
      News(actions[..|actions| - 1]) + if a.DoNew? && a.lifetime >= FOREVER then 1 else 0
  }

  function NewsOfCallbacks(callbacks: seq<seq<Action>>, count: nat): nat {
    if count == 0 then 0 else NewsOfCallbacks(callbacks, count - 1) + News(Callback(callbacks, count - 1))
  }

  function NewsOfRun(ops: seq<Op>, orders: seq<seq<EventId>>): nat
    requires |orders| == |ops|
  {
    if ops == [] then 0
    else
      var n := |ops| - 1;
      NewsOfRun(ops[..n], orders[..n]) + match ops[n]
      case Act(action) => News([action])
      case TickAt(now, callbacks) =>
        NewsOfCallbacks(callbacks, |Turns(Life(ops[..n], orders[..n]), orders[n], now, callbacks).1|)
  }

  lemma {:induction false} NewsOfDone(st: State, actions: seq<Action>, self: int)
    ensures |DoneAll(st, actions, self).slots| == |st.slots| + News(actions)
  {
    if actions != [] {
      NewsOfDone(st, actions[..|actions| - 1], self);
    }
  }

  lemma {:induction false} NewsOfTurns(st: State, order: seq<EventId>, now: real, callbacks: seq<seq<Action>>)
    ensures var (t, fired) := Turns(st, order, now, callbacks);
      |t.slots| == |st.slots| + NewsOfCallbacks(callbacks, |fired|)
  {
    if order != [] {
      var n := |order| - 1;
      NewsOfTurns(st, order[..n], now, callbacks);
      var (t, fired) := Turns(st, order[..n], now, callbacks);
      if Fires(t, order[n], now) {
        NewsOfDone(Struck(t, order[n]), Callback(callbacks, |fired|), order[n]);
      }
    }
  }

  /** In every run every event agrees with its history, and there are as many as were allocated. */
  lemma {:induction false} LifeKeeps(ops: seq<Op>, orders: seq<seq<EventId>>)
    requires Snapshots(ops, orders)
    ensures Ok(Life(ops, orders), NOBODY) && |Life(ops, orders).slots| == NewsOfRun(ops, orders)
  {
    if ops != [] {
      var n := |ops| - 1;
      LifeKeeps(ops[..n], orders[..n]);
      var st := Life(ops[..n], orders[..n]);
      match ops[n] {
        case Act(action) =>
          DoneKeeps(st, action, NOBODY);
          NewsOfDone(st, [action], NOBODY);
          assert [action][..0] == [];
        case TickAt(now, callbacks) =>
          TurnsKeep(st, orders[n], now, callbacks);
          NewsOfTurns(st, orders[n], now, callbacks);
      }
    }
  }

  /** A finite lifetime bounds the firings. */
  predicate Bounded(h: History) {
    h.lifetime == FOREVER || h.firings <= h.lifetime
  }

  /**
   After the destructor no event has fired more often than its lifetime says. It has been freed once exactly if it
   stayed registered to the end, last left the timer in its own firing, or was deleted from outside of it; twice
   exactly if its own callback deleted it; and never if it was not registered or somebody unregistered it.
   */
  lemma FreedExactly(ops: seq<Op>, orders: seq<seq<EventId>>, id: EventId)
    requires Snapshots(ops, orders) && id < |Life(ops, orders).slots|
    ensures var st := Life(ops, orders);
      var s := Destroyed(st.slots[id], id in st.timers);
      && Bounded(s.history) && s.frees <= 2
      && (s.frees == 1 <==> id in st.timers || s.history.standing.LeftInside? || s.history.standing.Deleted?)
      && (s.frees == 2 <==> s.history.standing.DeletedInside?)
      && (s.event.lifetime == 0 && s.history.firings > 0 ==> s.frees > 0)
  {
    LifeKeeps(ops, orders);
  }

  /** No registered event that has fired since has its time of firing at or after a limit. */
  ghost predicate InTime(st: State, limit: real) {
    forall id :: 0 <= id < |st.slots| && id in st.timers && st.slots[id].history.since > 0 ==>
      st.slots[id].event.lasttime < limit
  }

  lemma {:induction false} DoneInTime(st: State, actions: seq<Action>, self: int, limit: real)
    requires InTime(st, limit) && forall id :: id in st.timers ==> id < |st.slots|
    ensures InTime(DoneAll(st, actions, self), limit)
    ensures forall id :: id in DoneAll(st, actions, self).timers ==> id < |DoneAll(st, actions, self).slots|
  {
    if actions != [] {
      DoneInTime(st, actions[..|actions| - 1], self, limit);
    }
  }

  lemma {:induction false} TurnsInTime(st: State, order: seq<EventId>, now: real, callbacks: seq<seq<Action>>,
                                       limit: real)
    requires InTime(st, limit) && now <= limit && forall id :: id in st.timers ==> id < |st.slots|
    ensures var t := Turns(st, order, now, callbacks).0;
      InTime(t, limit) && forall id :: id in t.timers ==> id < |t.slots|
  {
    if order != [] {
      var n := |order| - 1;
      TurnsInTime(st, order[..n], now, callbacks, limit);
      var (t, fired) := Turns(st, order[..n], now, callbacks);
      if Fires(t, order[n], now) {
        assert Struck(t, order[n]).slots[order[n]].event.lasttime < now;
        DoneInTime(Struck(t, order[n]), Callback(callbacks, |fired|), order[n], limit);
      }
    }
  }

  lemma {:induction false} LifeInTime(ops: seq<Op>, orders: seq<seq<EventId>>, limit: real)
    requires |orders| == |ops| && forall i :: 0 <= i < |ops| && ops[i].TickAt? ==> ops[i].now <= limit
    ensures InTime(Life(ops, orders), limit)
    ensures forall id :: id in Life(ops, orders).timers ==> id < |Life(ops, orders).slots|
  {
    if ops != [] {
      var n := |ops| - 1;
      LifeInTime(ops[..n], orders[..n], limit);
      var st := Life(ops[..n], orders[..n]);
      match ops[n] {
        case Act(action) =>
          DoneInTime(st, [action], NOBODY, limit);
          assert [action][..0] == [];
        case TickAt(now, callbacks) => TurnsInTime(st, orders[n], now, callbacks, limit);
      }
    }
  }

  /**
   No event runs ahead of the clock: one that has fired n times since it was registered was registered more than
   n of its periods before the latest tick.
   */
  lemma NeverAhead(ops: seq<Op>, orders: seq<seq<EventId>>, id: EventId, s: Slot, latest: real)
    requires Snapshots(ops, orders) && id in Life(ops, orders).timers
    requires id < |Life(ops, orders).slots| && s == Life(ops, orders).slots[id]
    requires forall i :: 0 <= i < |ops| && ops[i].TickAt? ==> ops[i].now <= latest
    ensures s.history.since > 0 ==> s.history.registered + s.history.since as real * s.event.speed < latest
  {
    LifeKeeps(ops, orders);
    LifeInTime(ops, orders, latest);
    if s.history.since > 0 {
      PeriodsPassed(s, latest);
    }
  }

  lemma PeriodsPassed(s: Slot, latest: real)
    requires SlotOk(s, true, true) && s.event.lasttime < latest
    ensures s.history.registered + s.history.since as real * s.event.speed < latest
  {
    ElapsedIsProduct(s.history.since, s.event.speed);
  }

  predicate Plain(actions: seq<Action>) {
    forall i :: 0 <= i < |actions| ==> !actions[i].DoUnregister?
  }

  /** Nobody calls Unregister but the timer and the destructor of an event. */
  predicate PlainOp(op: Op) {
    match op
    case Act(action) => Plain([action])
    case TickAt(_, callbacks) => forall k :: 0 <= k < |callbacks| ==> Plain(callbacks[k])
  }

  predicate NoneOut(st: State) {
    forall id :: 0 <= id < |st.slots| ==> !st.slots[id].history.standing.Unregistered?
  }

  lemma {:induction false} PlainAll(st: State, actions: seq<Action>, self: int)
    requires NoneOut(st) && Plain(actions)
    ensures NoneOut(DoneAll(st, actions, self))
  {
    if actions != [] {
      PlainAll(st, actions[..|actions| - 1], self);
    }
  }

  lemma {:induction false} PlainTurns(st: State, order: seq<EventId>, now: real, callbacks: seq<seq<Action>>)
    requires NoneOut(st) && PlainOp(TickAt(now, callbacks))
    ensures NoneOut(Turns(st, order, now, callbacks).0)
  {
    if order != [] {
      var n := |order| - 1;
      PlainTurns(st, order[..n], now, callbacks);
      var (t, fired) := Turns(st, order[..n], now, callbacks);
      if Fires(t, order[n], now) {
        PlainAll(Struck(t, order[n]), Callback(callbacks, |fired|), order[n]);
      }
    }
  }

  lemma {:induction false} PlainLife(ops: seq<Op>, orders: seq<seq<EventId>>)
    requires |orders| == |ops| && forall i :: 0 <= i < |ops| ==> PlainOp(ops[i])
    ensures NoneOut(Life(ops, orders))
  {
    if ops != [] {
      var n := |ops| - 1;
      PlainLife(ops[..n], orders[..n]);
      var st := Life(ops[..n], orders[..n]);
      match ops[n] {
        case Act(action) =>
          PlainAll(st, [action], NOBODY);
          assert [action][..0] == [];
        case TickAt(now, callbacks) => PlainTurns(st, orders[n], now, callbacks);
      }
    }
  }

  /**
   Where everybody takes events off by deleting them, as this program does, every event that was registered or
   deleted is freed, and more than once exactly if its own callback deletes it.
   */
  lemma FreedWithoutUnregister(ops: seq<Op>, orders: seq<seq<EventId>>, id: EventId)
    requires Snapshots(ops, orders) && id < |Life(ops, orders).slots|
    requires forall i :: 0 <= i < |ops| ==> PlainOp(ops[i])
    ensures var st := Life(ops, orders);
      var s := Destroyed(st.slots[id], id in st.timers);
      && (s.frees == 0 <==> s.history.standing.Fresh?)
      && (s.frees > 1 <==> s.history.standing.DeletedInside?)
  {
    LifeKeeps(ops, orders);
    PlainLife(ops, orders);
  }

  /** The life of a timer, destructor included. */
  method WholeLife(ops: seq<Op>) returns (slots: seq<Slot>, ghost orders: seq<seq<EventId>>)
    ensures Snapshots(ops, orders)
    ensures var st := Life(ops, orders);
      |slots| == |st.slots| && forall id :: 0 <= id < |slots| ==> slots[id] == Destroyed(st.slots[id], id in st.timers)
  {
    var t := new Timer();
    orders := [];
    for i := 0 to |ops|
      invariant fresh(t) && t.Valid() && |orders| == i
      invariant Snapshots(ops[..i], orders) && t.Now() == Life(ops[..i], orders)
    {
      assert ops[..i + 1][..i] == ops[..i];
      ghost var order: seq<EventId> := [];
      match ops[i] {
        case Act(action) =>
          t.RunCallback([action], NOBODY);
          DoneKeeps(Life(ops[..i], orders), action, NOBODY);
          assert [action][..0] == [];
        case TickAt(now, callbacks) =>
          var _, snapshot := t.Tick(now, callbacks);
          order := snapshot;
      }
      assert (orders + [order])[..i] == orders;
      orders := orders + [order];
    }
    assert ops[..|ops|] == ops;
    t.Destroy();
    slots := t.slots;
  }

  lemma LifeStep(ops: seq<Op>, action: Action, orders: seq<seq<EventId>>)
    requires Snapshots(ops, orders)
    ensures Snapshots(ops + [Act(action)], orders + [[]])
    ensures Life(ops + [Act(action)], orders + [[]]) == Done(Life(ops, orders), action, NOBODY)
  {
    assert (ops + [Act(action)])[..|ops|] == ops && (orders + [[]])[..|ops|] == orders;
  }

  /** An event that is unregistered from outside its callback, and not deleted, is not freed. */
  lemma UnregisteredIsKept() returns (ops: seq<Op>, orders: seq<seq<EventId>>)
    ensures Snapshots(ops, orders)
    ensures var st := Life(ops, orders);
      |st.slots| == 1 && st.slots[0].event.lifetime == FOREVER && Destroyed(st.slots[0], 0 in st.timers).frees == 0
  {
    ops, orders := Started();
    var unregister := DoUnregister(0);
    LifeStep(ops, unregister, orders);
    ops, orders := ops + [Act(unregister)], orders + [[]];
  }

  /** One endless event, registered at time 0. */
  lemma Started() returns (ops: seq<Op>, orders: seq<seq<EventId>>)
    ensures Snapshots(ops, orders)
    ensures Life(ops, orders)
      == State([Slot(TimeEvent(1.0, 0.0, FOREVER, true), History(FOREVER, 0, 0.0, 0, Registered), 0)], {0})
  {
    var add, register := DoNew(1.0, FOREVER), DoRegister(0, 0.0);
    LifeStep([], add, []);
    LifeStep([] + [Act(add)], register, [] + [[]]);
    ops, orders := [] + [Act(add)] + [Act(register)], [] + [[]] + [[]];
  }

  /** An event that its own callback deletes is freed by the tick again. */
  lemma OwnDeleteFreesTwice() returns (ops: seq<Op>, orders: seq<seq<EventId>>)
    ensures Snapshots(ops, orders)
    ensures var st := Life(ops, orders); |st.slots| == 1 && Destroyed(st.slots[0], 0 in st.timers).frees == 2
  {
    var before, snapshots := Started();
    var st, callbacks := Life(before, snapshots), [[DoDelete(0)]];
    ops, orders := before + [TickAt(2.0, callbacks)], snapshots + [[0]];
    assert ops[..|before|] == before && orders[..|before|] == snapshots;
    assert [0][..0] == [] && [DoDelete(0)][..0] == [];
    assert Turns(st, [], 2.0, callbacks) == (st, []);
    assert Life(ops, orders) == Fired(st, 0, [DoDelete(0)]);
    DeletedInFiring(st);
  }

  lemma DeletedInFiring(st: State)
    requires |st.slots| == 1 && st.timers == {0} && st.slots[0].frees == 0
    requires st.slots[0].event.managed && st.slots[0].event.lifetime == FOREVER
    ensures var t := Fired(st, 0, [DoDelete(0)]); |t.slots| == 1 && t.timers == {} && t.slots[0].frees == 2
  {
    var a, u := [DoDelete(0)], Struck(st, 0);
    assert DoneAll(u, a[..0], 0) == u;
    assert DoneAll(u, a, 0) == Done(u, a[0], 0) == Erased(u, 0, 0);
  }
}
