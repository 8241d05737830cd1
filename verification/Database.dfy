/**
 Transactions over a connection that can be lost: RawQuery with its recovery, the redo log,
 BeginTransaction, Commit, Rollback and ExecuteQueries of src/database.cpp (MySQL engine).
 */
module Database {
  import opened Common

  datatype Statement = Start | Commit | Rollback | Sql(query: string)

  /** What becomes of one call to the server: it is carried out, the connection is lost, or it is refused. */
  datatype Fate = Carried | Lost | Refused

  datatype Reply = Ok | Gone | Failed

  /** What a statement makes of a database, or None if the statement is in error. */
  type Apply<!S> = (S, string) -> Option<S>

  /** strncmp on the first six characters. */
  predicate IsSelect(q: string): (r: bool)
    ensures r <==> "SELECT" <= q
  {
    |q| >= 6 && q[..6] == "SELECT"
  }

  /** All that is known of the statements: one that begins with SELECT changes nothing. */
  ghost predicate SelectsRead<S(!new)>(apply: Apply<S>) {
    forall s: S, q :: "SELECT" <= q ==> apply(s, q).None? || apply(s, q) == Some(s)
  }

  /** The statements of a log carried out one after the other. */
  function Fold<S>(apply: Apply<S>, s: S, log: seq<string>): Option<S> {
    if log == [] then Some(s)
    else match Fold(apply, s, log[..|log| - 1])
      case None => None
      case Some(t) => apply(t, log[|log| - 1])
  }

  lemma {:induction false} FoldPrefix<S>(apply: Apply<S>, s: S, log: seq<string>, k: nat)
    requires k <= |log| && Fold(apply, s, log).Some?
    ensures Fold(apply, s, log[..k]).Some?
    decreases |log|
  {
    if k == |log| {
      assert log[..k] == log;
    } else {
      FoldPrefix(apply, s, log[..|log| - 1], k);
      assert log[..|log| - 1][..k] == log[..k];
    }
  }

  // -- The loss-free database ----------------------------------------------------------

  /** What is committed, and the state inside the open transaction, if there is one. */
  datatype Model<S> = Model(committed: S, open: Option<S>)

  /** One statement on a connection that is never lost; None if the statement is in error. */
  function Carry<S>(apply: Apply<S>, m: Model<S>, stmt: Statement): Option<Model<S>> {
    match stmt
    case Start => Some(Model(m.committed, Some(m.committed)))
    case Commit => Some(Model(if m.open.Some? then m.open.value else m.committed, None))
    case Rollback => Some(Model(m.committed, None))
    case Sql(q) =>
      match apply(if m.open.Some? then m.open.value else m.committed, q)
      case None => None
      case Some(t) => Some(if m.open.Some? then m.(open := Some(t)) else m.(committed := t))
  }

  // -- The server ----------------------------------------------------------------------

  class MySql<S> {
    const apply: Apply<S>
    var state: Model<S>
    var fates: seq<Fate>  // of the coming calls; when they run out, everything is carried out

    constructor (apply: Apply<S>, s: S, fates: seq<Fate>)
      ensures this.apply == apply && state == Model(s, None) && this.fates == fates
    {
      this.apply := apply;
      state, this.fates := Model(s, None), fates;
    }

    method NextFate() returns (f: Fate)
      modifies `fates
      ensures fates == if old(fates) == [] then [] else old(fates)[1..]
      ensures f == if old(fates) == [] then Carried else old(fates)[0]
    {
      f := Carried;
      if fates != [] {
        f := fates[0];
        fates := fates[1..];
      }
    }

    /** A lost connection drops the open transaction and a lost or refused statement has no effect. */
    method Query(stmt: Statement) returns (r: Reply)
      modifies this
      ensures |fates| <= |old(fates)| && (r.Gone? ==> |fates| < |old(fates)|)
      ensures Refused !in old(fates) ==> Refused !in fates
      ensures match r
        case Ok => Carry(apply, old(state), stmt) == Some(state)
        case Gone => state == Model(old(state.committed), None)
        case Failed => state == old(state) && (Carry(apply, old(state), stmt).None? || Refused in old(fates))
    {
      var f := NextFate();
      if f.Lost? {
        state := Model(state.committed, None);
        return Gone;
      }
      var next := Carry(apply, state, stmt);
      if f.Refused? || next.None? {
        return Failed;
      }
      state := next.value;
      return Ok;
    }

    method Connect() returns (ok: bool)
      modifies `fates
      ensures |fates| <= |old(fates)| && (Refused !in old(fates) ==> Refused !in fates)
    {
      var f := NextFate();
      ok := f.Carried?;
    }

    method Disconnect()
      modifies `state
      ensures state == Model(old(state.committed), None)
    {
      state := Model(state.committed, None);
    }
  }

  // -- The client ----------------------------------------------------------------------

  datatype Result = Done | Thrown | Halted

  class Connection<S(!new)> {
    const server: MySql<S>
    var connected: bool
    var inTransaction: bool
    var log: seq<string>

    /** Whenever a call returns: the open state is the log carried out on what is committed. */
    ghost predicate Valid()
      reads this, server
    {
      && SelectsRead(server.apply) && connected
      && (inTransaction ==>
        server.state.open.Some? && Fold(server.apply, server.state.committed, log) == server.state.open)
      && (!inTransaction ==> server.state.open.None? && log == [])
    }

    constructor (server: MySql<S>)
      requires SelectsRead(server.apply) && server.state.open.None?
      ensures Valid() && this.server == server && !inTransaction
    {
      this.server := server;
      connected, inTransaction, log := true, false, [];
    }

    /** The state inside the transaction that the log describes. */
    ghost function Replayed(): Option<S>
      reads this, server
    {
      if inTransaction then Fold(server.apply, server.state.committed, log) else None
    }

    /** One pass of the recovery: reconnect and replay. */
    method Reconnect() returns (r: Reply)
      requires SelectsRead(server.apply)
      requires Fold(server.apply, server.state.committed, log).Some?
      modifies `connected, server
      ensures server.state.committed == old(server.state.committed)
      ensures |server.fates| <= |old(server.fates)|
      ensures Refused !in old(server.fates) ==> Refused !in server.fates && !r.Failed?
      ensures r.Ok? ==> connected
      ensures r.Ok? ==> server.state.open == Replayed()
    {
      connected := false;
      server.Disconnect();
      connected := server.Connect();
      if !connected {
        return Gone;
      }
      if inTransaction {
        r := server.Query(Start);
        if !r.Ok? {
          return;
        }
        for i := 0 to |log|
          invariant connected && server.state.committed == old(server.state.committed)
          invariant |server.fates| <= |old(server.fates)|
          invariant Refused !in old(server.fates) ==> Refused !in server.fates
          invariant server.state.open.Some?
          invariant Fold(server.apply, server.state.committed, log[..i]) == server.state.open
        {
          FoldPrefix(server.apply, server.state.committed, log, i + 1);
          assert log[..i + 1][..i] == log[..i];
          r := server.Query(Sql(log[i]));
          if !r.Ok? {
            return;
          }
        }
        assert log[..|log|] == log;
      }
      return Ok;
    }

    /** Up to ten passes. */
    method Recover() returns (ok: bool)
      requires SelectsRead(server.apply)
      requires Fold(server.apply, server.state.committed, log).Some?
      modifies `connected, server
      ensures server.state.committed == old(server.state.committed)
      ensures |server.fates| <= |old(server.fates)|
      ensures Refused !in old(server.fates) ==> Refused !in server.fates
      ensures ok ==> connected && server.state.open == Replayed()
    {
      var attempt := 0;
      while true
        invariant server.state.committed == old(server.state.committed)
        invariant |server.fates| <= |old(server.fates)|
        invariant Refused !in old(server.fates) ==> Refused !in server.fates
        decreases 10 - attempt
      {
        attempt := attempt + 1;
        if attempt > 10 {
          return false;
        }
        var r := Reconnect();
        if r.Ok? {
          return true;
        }
        if r.Failed? {
          return false;
        }
      }
    }

    /** A statement is carried out exactly once, however often the connection is lost on the way. */
    method RawQuery(stmt: Statement, txControl: bool) returns (r: Result)
      requires Valid() && (txControl <==> !stmt.Sql?)
      modifies this, server
      ensures inTransaction == old(inTransaction)
      ensures Refused !in old(server.fates) ==> Refused !in server.fates
      ensures r.Halted? ==> server.state.committed == old(server.state.committed)
      ensures r.Done? ==> Carry(server.apply, old(server.state), stmt) == Some(server.state)
      ensures r.Done? ==> if stmt.Sql? then Valid() else connected
      ensures r.Done? ==>
        log == old(log) + if stmt.Sql? && inTransaction && !("SELECT" <= stmt.query) then [stmt.query] else []
      ensures r.Thrown? ==> (
        && Valid() && server.state == old(server.state) && log == old(log)
        && (Carry(server.apply, old(server.state), stmt).None? || Refused in old(server.fates)))
    {
      var reply := Gone;
      while reply.Gone?
        invariant inTransaction == old(inTransaction) && log == old(log)
        invariant Refused !in old(server.fates) ==> Refused !in server.fates
        invariant reply.Gone? ==> Valid() && server.state == old(server.state)
        invariant reply.Ok? ==> connected && Carry(server.apply, old(server.state), stmt) == Some(server.state)
        invariant reply.Failed? ==> (
          && Valid() && server.state == old(server.state)
          && (Carry(server.apply, old(server.state), stmt).None? || Refused in old(server.fates)))
        decreases |server.fates|, reply.Gone?
      {
        reply := server.Query(stmt);
        if reply.Gone? {
          var ok := Recover();
          if !ok {
            return Halted;
          }
        }
      }
      if reply.Failed? {
        return Thrown;
      }
      if inTransaction && !txControl {
        if !IsSelect(stmt.query) {
          log := log + [stmt.query];
          assert log[..|log| - 1] == old(log);
        }
      }
      return Done;
    }

    /** False if a transaction is open already. */
    method BeginTransaction() returns (r: Result, begun: bool)
      requires Valid()
      modifies this, server
      ensures Refused !in old(server.fates) ==> Refused !in server.fates
      ensures r.Halted? ==> server.state.committed == old(server.state.committed)
      ensures !r.Thrown?
      ensures r.Done? ==> Valid() && begun == !old(inTransaction) && inTransaction
      ensures r.Done? ==>
        Some(server.state) == if begun then Carry(server.apply, old(server.state), Start) else Some(old(server.state))
      ensures r.Done? && begun ==> log == []
    {
      if inTransaction {
        return Done, false;
      }
      var attempt := 1;
      r := RawQuery(Start, true);
      while r.Thrown?
        invariant inTransaction == old(inTransaction)
        invariant Refused !in old(server.fates) ==> Refused !in server.fates
        invariant r.Halted? ==> server.state.committed == old(server.state.committed)
        invariant r.Thrown? ==> Valid() && server.state == old(server.state)
        invariant r.Done? ==>
          connected && log == [] && Carry(server.apply, old(server.state), Start) == Some(server.state)
        decreases 10 - attempt
      {
        if attempt >= 10 {
          return Halted, false;
        }
        attempt := attempt + 1;
        r := RawQuery(Start, true);
      }
      if r.Halted? {
        return r, false;
      }
      inTransaction := true;
      return Done, true;
    }

    /** End is Commit or Rollback; outside a transaction the code throws instead of calling the server. */
    method EndTransaction(end: Statement) returns (r: Result)
      requires Valid() && (end.Commit? || end.Rollback?)
      modifies this, server
      ensures Refused !in old(server.fates) ==> Refused !in server.fates
      ensures r.Halted? ==> server.state.committed == old(server.state.committed)
      ensures r.Done? ==> Valid() && old(inTransaction) && !inTransaction
      ensures r.Done? ==> Carry(server.apply, old(server.state), end) == Some(server.state)
      ensures r.Thrown? ==> Valid() && server.state == old(server.state) && inTransaction == old(inTransaction)
      ensures r.Thrown? ==> !old(inTransaction) || Refused in old(server.fates)
    {
      if !inTransaction {
        return Thrown;
      }
      r := RawQuery(end, true);
      if r.Done? {
        inTransaction := false;
        log := [];
      }
    }

    /** All statements or none. A refused rollback in the destructor ends the program. */
    method ExecuteQueries(queries: seq<string>) returns (r: Result)
      requires Valid()
      modifies this, server
      ensures r.Halted? ==> server.state.committed == old(server.state.committed)
      ensures r.Done? ==> Valid() && !old(inTransaction) && !inTransaction
      ensures r.Done? ==> Some(server.state.committed) == Fold(server.apply, old(server.state.committed), queries)
      ensures r.Thrown? ==> Valid() && server.state == old(server.state) && inTransaction == old(inTransaction)
      ensures r.Thrown? && Refused !in old(server.fates) ==>
        old(inTransaction) || Fold(server.apply, old(server.state.committed), queries).None?
    {
      var begun;
      r, begun := BeginTransaction();
      if r.Halted? {
        return;
      }
      if !begun {
        return Thrown;
      }
      ghost var start := server.state.committed;
      var i := 0;
      while i < |queries| && r.Done?
        invariant 0 <= i <= |queries| && !r.Halted? && Valid() && inTransaction
        invariant server.state.committed == start
        invariant Refused !in old(server.fates) ==> Refused !in server.fates
        invariant r.Done? ==> server.state.open == Fold(server.apply, start, queries[..i])
        invariant r.Thrown? && Refused !in old(server.fates) ==> Fold(server.apply, start, queries).None?
        decreases |queries| - i, r.Done?
      {
        r := RawQuery(Sql(queries[i]), false);
        if r.Halted? {
          return;
        }
        assert queries[..i + 1][..i] == queries[..i];
        if r.Done? {
          i := i + 1;
        } else if Fold(server.apply, start, queries).Some? {
          FoldPrefix(server.apply, start, queries, i + 1);
        }
      }
      assert r.Done? ==> queries[..i] == queries;
      if r.Done? {
        r := EndTransaction(Commit);
      }
      if r.Thrown? {
        var undo := EndTransaction(Rollback);
        if !undo.Done? {
          r := Halted;
        }
      }
    }
  }

  // -- Whole runs ----------------------------------------------------------------------

  datatype Op = BeginOp | QueryOp(query: string) | CommitOp | RollbackOp

  datatype Answer = Yes | No | Error

  /** One call on a connection that is never lost. */
  function Calm<S>(apply: Apply<S>, m: Model<S>, op: Op): (Model<S>, Answer) {
    var stmt := match op
      case BeginOp => Start
      case QueryOp(q) => Sql(q)
      case CommitOp => Commit
      case RollbackOp => Rollback;
    if op.BeginOp? && m.open.Some? then (m, No)
    else if (op.CommitOp? || op.RollbackOp?) && m.open.None? then (m, Error)
    else match Carry(apply, m, stmt)
      case None => (m, Error)
      case Some(t) => (t, Yes)
  }

  function CalmRun<S>(apply: Apply<S>, m: Model<S>, ops: seq<Op>): (Model<S>, seq<Answer>)
    ensures |CalmRun(apply, m, ops).1| == |ops|
  {
    if ops == [] then (m, []) else
      var (t, answers) := CalmRun(apply, m, ops[..|ops| - 1]);
      var (u, a) := Calm(apply, t, ops[|ops| - 1]);
      (u, answers + [a])
  }

  method Call<S(!new)>(c: Connection<S>, op: Op) returns (r: Result, a: Answer)
    requires c.Valid() && Refused !in c.server.fates
    modifies c, c.server
    ensures r.Halted? ==> c.server.state.committed == old(c.server.state.committed)
    ensures !r.Halted? ==> c.Valid() && Refused !in c.server.fates
    ensures !r.Halted? ==> (c.server.state, a) == Calm(c.server.apply, old(c.server.state), op)
  {
    var begun := true;
    match op {
      case BeginOp => r, begun := c.BeginTransaction();
      case QueryOp(q) => r := c.RawQuery(Sql(q), false);
      case CommitOp => r := c.EndTransaction(Commit);
      case RollbackOp => r := c.EndTransaction(Rollback);
    }
    a := if r.Thrown? then Error else if begun then Yes else No;
  }

  /**
   Whatever connections are lost, a run ends in the state of the run without losses and gives the same
   answers; if the program gives up, what is committed is what was committed by the calls that returned.
   */
  method Run<S(!new)>(c: Connection<S>, ops: seq<Op>) returns (halted: bool, answers: seq<Answer>)
    requires c.Valid() && Refused !in c.server.fates
    modifies c, c.server
    ensures |answers| <= |ops| && (halted ==> |answers| < |ops|)
    ensures var (m, calm) := CalmRun(c.server.apply, old(c.server.state), ops[..|answers|]);
      answers == calm && c.server.state.committed == m.committed && (!halted ==> c.server.state == m)
    ensures !halted ==> c.Valid() && answers == CalmRun(c.server.apply, old(c.server.state), ops).1
  {
    answers := [];
    for i := 0 to |ops|
      invariant c.Valid() && Refused !in c.server.fates && |answers| == i
      invariant (c.server.state, answers) == CalmRun(c.server.apply, old(c.server.state), ops[..i])
    {
      assert ops[..i + 1][..i] == ops[..i];
      var r, a := Call(c, ops[i]);
      if r.Halted? {
        return true, answers;
      }
      answers := answers + [a];
    }
    assert ops[..|ops|] == ops;
    halted := false;
  }
}
