/** The runner's code: one session that makes its queries in order, with the errors and cleanups of each.

    Every query asks the environment, which answers it, makes it fail, or ends the process. A ghost copy of the
    protocol's system takes the same steps, so whatever is proved of all interleavings holds of this code. */
module RuntimeMigrate {
  import opened Wrappers
  import opened MigrationSchema
  import opened MigrationPlan
  import opened MigrationProtocol
  import opened MigrationInvariant
  import opened MigrationSafety

  datatype Fate = Answers | Fails | Dies

  /** How a piece of code ends: normally, with an exception, or not at all because the process was killed. */
  datatype Reply = Returned | Threw | Lost

  lemma {:induction false} ReplayAppend(c: Catalog, s: System, events: seq<Event>, e: Event)
    requires c.Valid() && Inv(c, s)
    ensures Inv(c, Replay(c, s, events))
    ensures Replay(c, s, events + [e]) == Apply(c, Replay(c, s, events), e)
    decreases |events|
  {
    hide Inv, Apply;
    AllPlanned(c, s);
    ReplayKeepsInv(c, s, events);
    AllPlanned(c, Replay(c, s, events));
    if events == [] {
      assert ([] + [e])[1..] == [];
      ApplyKeepsInv(c, s, e);
    } else {
      ApplyKeepsInv(c, s, events[0]);
      assert (events + [e])[1..] == events[1..] + [e];
      ReplayAppend(c, Apply(c, s, events[0]), events[1..], e);
    }
  }

  /** What connecting changes. */
  lemma Connected(c: Catalog, s: System, id: int, len: nat)
    requires c.Valid() && Inv(c, s) && id !in s.runners && len <= |c.millis|
    ensures forall r :: r in s.runners ==> Planned(c, s.runners[r])
    ensures Inv(c, Apply(c, s, Arrive(id, len)))
    ensures Apply(c, s, Arrive(id, len)) == s.(runners := s.runners[id := NewRunner(c, len)])
    ensures Replay(c, s, [Arrive(id, len)]) == Apply(c, s, Arrive(id, len))
  {
    hide Inv, Planned;
    AllPlanned(c, s);
    ApplyKeepsInv(c, s, Arrive(id, len));
    assert [Arrive(id, len)][1..] == [];
  }

  /** No event of a run changes what the run is going to make of the database. */
  lemma EventKeepsGoal(c: Catalog, s: System, e: Event, id: int)
    requires c.Valid() && Inv(c, s) && id in s.runners && e in {Acquire(id), Step(id), Fail(id), Kill(id)}
    requires s.runners[id].len <= |c.millis|
    ensures Completed(c, s.runners[id].len, Apply(c, s, e).db) == Completed(c, s.runners[id].len, s.db)
    ensures id in Apply(c, s, e).runners
    ensures Apply(c, s, e).runners[id].len == s.runners[id].len
    ensures Apply(c, s, e).runners[id].stages == s.runners[id].stages
  {
    hide Consistent, Local, Planned, Next, Shape;
    assert RunnerOk(c, s, id);
    if e == Step(id) && s.runners[id].pc.At? {
      NextOk(c, s.db, s.runners[id]);
      JournalIsPrefix(c, Apply(c, s, e).db);
    }
  }

  /** Inside an online stage the next query is that of the stage. */
  lemma OnlineQuery(c: Catalog, d: Db, r: Runner, t: Target, i: nat)
    requires Planned(c, r) && r.pc.At? && r.pc.stage < |r.stages| && r.stages[r.pc.stage] == Online(t, i)
    ensures i < |c.millis| && Next(c, d, r) == OnlineNext(c, d, r, t, i)
  {
    hide OnlineNext;
  }

  lemma BatchQuery(c: Catalog, d: Db, r: Runner, lo: nat, hi: nat)
    requires Planned(c, r) && r.pc.At? && r.pc.stage < |r.stages| && r.stages[r.pc.stage] == Batch(lo, hi)
    ensures lo <= hi <= |c.millis| && Next(c, d, r) == BatchNext(c, d, r, lo, hi)
  {
    hide BatchNext;
  }

  lemma PlanOf(c: Catalog, s: System, id: int)
    requires c.Placed() && Inv(c, s) && id in s.runners
    ensures Planned(c, s.runners[id])
  {
    hide Planned, Local, Consistent;
    assert RunnerOk(c, s, id);
  }

  lemma HasStages(c: Catalog, r: Runner)
    requires Planned(c, r)
    ensures r.stages != []
  {
  }

  lemma WaitingIsIdle(c: Catalog, s: System, id: int)
    requires c.Placed() && Inv(c, s) && id in s.runners && s.runners[id].pc == Waiting
    ensures s.runners[id].tx == None && Planned(c, s.runners[id])
  {
    hide Planned, Local, Consistent;
    assert RunnerOk(c, s, id);
  }

  /** A session that is over holds no lock, and was stopped by the environment or left its package journaled. */
  lemma HowItEnded(c: Catalog, s: System, id: int)
    requires c.Placed() && Inv(c, s) && id in s.runners
    requires s.runners[id].pc.Finished? || s.runners[id].pc == Killed
    ensures s.lock != Some(id)
    ensures s.runners[id].pc.Finished? ==> s.runners[id].pc.outcome in {Done, Interrupted}
    ensures s.runners[id].pc == Finished(Done) ==> s.runners[id].len <= |s.db.journal|
  {
    hide Planned, Local, Consistent;
    assert RunnerOk(c, s, id);
  }

  /** The queries that drop and build an index. */
  lemma IndexQueries(c: Catalog, d: Db, r: Runner, t: Target, i: nat)
    requires r.pc.At? && i < |c.millis|
    ensures r.pc.point == Drop ==> OnlineNext(c, d, r, t, i) == Auto(c, d, r, DropIndex(t), Start)
    ensures r.pc.point == Start ==> OnlineNext(c, d, r, t, i) == Auto(c, d, r, StartIndex(t, Built(t)), Finish)
    ensures r.pc.point == Finish ==> OnlineNext(c, d, r, t, i) == Auto(c, d, r, FinishIndex(t), Begin)
  {
    hide Auto;
  }

  lemma InspectQuery(c: Catalog, d: Db, r: Runner, t: Target, i: nat)
    requires r.pc.At? && i < |c.millis| && r.pc.point == Inspect
    ensures OnlineNext(c, d, r, t, i) ==
      (d, match IndexOf(d.schema, t)
          case Absent => Goto(r, Start)
          case Present(valid, definition) =>
            if definition != Expected(t) then Leave(r, Refused(UnexpectedIndex))
            else Goto(r, if valid then Begin else Drop))
  {
  }

  lemma LatestQuery(c: Catalog, d: Db, r: Runner, t: Target, i: nat)
    requires r.pc.At? && i < |c.millis| && r.pc.point == Latest
    ensures OnlineNext(c, d, r, t, i) ==
      (d, if LatestMillis(d.journal) >= c.millis[i] then Advance(r) else Goto(r, if t == Shift then Inspect else Guard))
  {
    hide Advance, LatestMillis;
  }

  lemma GuardQuery(c: Catalog, d: Db, r: Runner, i: nat)
    requires r.pc.At? && i < |c.millis| && r.pc.point == Guard
    ensures OnlineNext(c, d, r, Variant, i) ==
      (d, if c.offerTable !in d.schema.ordinary then Leave(r, Broken)
          else if !d.schema.oldUnique then Leave(r, Refused(MissingPredecessor)) else Goto(r, Column))
    ensures OnlineNext(c, d, r, Grant, i) ==
      (d, if c.grantTable !in d.schema.ordinary then Leave(r, Broken)
          else if d.schema.grantUnique then Leave(r, Refused(UnjournaledUniqueness)) else Goto(r, Inspect))
  {
  }

  lemma ColumnQueries(c: Catalog, d: Db, r: Runner, i: nat)
    requires r.pc.At? && i < |c.millis|
    ensures r.pc.point == Column ==>
      OnlineNext(c, d, r, Variant, i) == Auto(c, d, r, AddColumnIfMissing, AddTheCheck)
    ensures r.pc.point == AddTheCheck ==>
      OnlineNext(c, d, r, Variant, i) == Auto(c, d, r, AddCheckIfMissing, Validate)
    ensures r.pc.point == Validate ==>
      OnlineNext(c, d, r, Variant, i) == Auto(c, d, r, ValidateCheck, Inspect)
  {
    hide Auto;
  }

  lemma BatchQueries(c: Catalog, d: Db, r: Runner, lo: nat, hi: nat)
    requires r.pc.At? && hi <= |c.millis|
    ensures r.pc.point == Latest ==> BatchNext(c, d, r, lo, hi) == (d, Goto(r, BatchBegin(LatestMillis(d.journal))))
    ensures r.pc.point.BatchBegin? ==>
      BatchNext(c, d, r, lo, hi) == (d, Goto(r.(tx := Some(d)), Run(r.pc.point.latest, lo)))
    ensures r.pc.point.Run? && r.pc.point.i < hi && r.pc.point.latest >= c.millis[r.pc.point.i] ==>
      BatchNext(c, d, r, lo, hi) == (d, Goto(r, Run(r.pc.point.latest, r.pc.point.i + 1)))
    ensures r.pc.point.Run? && r.pc.point.i < hi && r.pc.point.latest < c.millis[r.pc.point.i] && r.tx.Some? ==>
      BatchNext(c, d, r, lo, hi) ==
        (d, match ExecAll(c, FileSql(c, r.pc.point.i), r.tx.value.schema)
            case None => Leave(r, Broken)
            case Some(s) =>
              Goto(r.(tx := Some(Db(r.tx.value.journal + [c.millis[r.pc.point.i]], s))),
                   Run(r.pc.point.latest, r.pc.point.i + 1)))
    ensures r.pc.point.Run? && r.pc.point.i == hi && r.tx.Some? ==>
      BatchNext(c, d, r, lo, hi) == (r.tx.value, Advance(r))
  {
    hide FileSql, ExecAll, Leave, Advance, LatestMillis;
  }

  /** The queries of the transaction that ends an online stage. */
  lemma BodyQueries(c: Catalog, d: Db, r: Runner, t: Target, i: nat)
    requires r.pc.At? && i < |c.millis|
    ensures r.pc.point == Begin ==> OnlineNext(c, d, r, t, i) == (d, Goto(r.(tx := Some(d)), Body(0)))
    ensures r.pc.point.Body? && r.pc.point.j < |BodySql(t)| && r.tx.Some? ==>
      OnlineNext(c, d, r, t, i) ==
        (d, match Exec(c, BodySql(t)[r.pc.point.j], r.tx.value.schema)
            case None => Leave(r, Broken)
            case Some(s) => Goto(r.(tx := Some(r.tx.value.(schema := s))), Body(r.pc.point.j + 1)))
    ensures r.pc.point == Body(|BodySql(t)|) ==> OnlineNext(c, d, r, t, i) == (d, Goto(r, Journal))
    ensures r.pc.point == Journal && r.tx.Some? ==>
      OnlineNext(c, d, r, t, i) ==
        (d, Goto(r.(tx := Some(r.tx.value.(journal := r.tx.value.journal + [c.millis[i]]))), Commit))
    ensures r.pc.point == Commit && r.tx.Some? ==> OnlineNext(c, d, r, t, i) == (r.tx.value, Advance(r))
  {
    hide BodySql, Exec, ExecAll, Leave, Advance;
    if r.tx.Some? {
      NothingRuns(c, r.tx.value.schema);
      if r.pc.point.Body? && r.pc.point.j < |BodySql(t)| {
        OneStatement(c, BodySql(t)[r.pc.point.j], r.tx.value.schema);
        assert r.tx.value.journal + [] == r.tx.value.journal;
      }
    }
  }

  /** Where a runner stands when its stage is over. */
  lemma AdvanceSlices(r: Runner, s: Stage, rest: seq<Stage>)
    requires r.pc.At? && r.pc.stage < |r.stages| && r.stages[r.pc.stage..] == [s] + rest
    ensures rest == [] ==> Advance(r).pc == Unlocking(Done)
    ensures rest != [] ==>
      Advance(r) == r.(pc := At(r.pc.stage + 1, Latest), tx := None)
      && r.stages[r.pc.stage + 1..] == rest && r.pc.stage + 1 < |r.stages|
  {
    assert r.stages[r.pc.stage + 1..] == r.stages[r.pc.stage..][1..] == rest;
  }

  /** One statement has taken the transaction from `before` to `after`. */
  predicate Ran(c: Catalog, q: Sql, before: Option<Db>, after: Option<Db>) {
    && before.Some? && after.Some? && after.value.journal == before.value.journal
    && Exec(c, q, before.value.schema) == Some(after.value.schema)
  }

  predicate Journaled(c: Catalog, i: nat, before: Option<Db>, after: Option<Db>)
    requires i < |c.millis|
  {
    && before.Some? && after.Some? && after.value.schema == before.value.schema
    && after.value.journal == before.value.journal + [c.millis[i]]
  }

  /** All the statements and the journal row of migration i, and nothing else. */
  predicate Migrated(c: Catalog, qs: seq<Sql>, i: nat, before: Db, after: Db)
    requires i < |c.millis|
  {
    && ExecAll(c, qs, before.schema) == Some(after.schema)
    && after.journal == before.journal + [c.millis[i]]
  }

  class Session {
    const c: Catalog
    const id: int
    const len: nat
    const fates: nat -> Fate

    /** The database, the advisory lock, the open transaction, and how many queries were made. */
    var db: Db
    var lock: Option<int>
    var tx: Option<Db>
    var clock: nat

    ghost const start: System
    ghost var sys: System
    ghost var events: seq<Event>

    ghost predicate Mirrored()
      reads `sys, `events
    {
      && c.Valid() && Inv(c, start) && Inv(c, sys)
      && sys == Replay(c, start, events)
      && id in sys.runners && Me().len == len <= |c.millis| && Me().stages == PackageStages(c, len)
      && Completed(c, len, sys.db) == Completed(c, len, start.db)
    }

    ghost function Me(): Runner
      reads `sys
      requires id in sys.runners
    {
      sys.runners[id]
    }

    ghost predicate Valid()
      reads this
    {
      && Mirrored() && id in sys.runners
      && sys.db == db && sys.lock == lock && (Me().pc.At? ==> Me().tx == tx)
    }

    /** The session stands before these stages of its plan. */
    ghost predicate Before(rest: seq<Stage>)
      reads `sys
      requires id in sys.runners
    {
      if rest == [] then Me().pc == Unlocking(Done)
      else
        && Me().pc.At? && Me().pc.point == Latest && Me().tx == None
        && Me().pc.stage <= |Me().stages| && Me().stages[Me().pc.stage..] == rest
    }

    /** The session is at a query of the online stage of migration i, and `rest` is what comes after it. */
    ghost predicate Inside(t: Target, i: nat, p: Point, rest: seq<Stage>)
      reads `sys
      requires id in sys.runners
    {
      && Me().pc.At? && Me().pc.point == p
      && Me().pc.stage < |Me().stages| && Me().stages[Me().pc.stage..] == [Online(t, i)] + rest
    }

    /** The session is at a query of a batch, and `rest` is what comes after it. */
    ghost predicate InBatch(lo: nat, hi: nat, p: Point, rest: seq<Stage>)
      reads `sys
      requires id in sys.runners
    {
      && Me().pc.At? && Me().pc.point == p && lo <= hi <= |c.millis|
      && Me().pc.stage < |Me().stages| && Me().stages[Me().pc.stage..] == [Batch(lo, hi)] + rest
    }

    predicate Calm(from: nat, to: nat) {
      forall k: nat :: from <= k < to ==> fates(k) == Answers
    }

    /** How the session stands after an unhappy end, and that the environment is to blame for it. */
    ghost predicate Accounts(r: Reply, from: nat)
      reads this
      requires id in sys.runners
    {
      && from <= clock
      && match r
         case Returned => Calm(from, clock)
         case Threw => Me().pc.Unlocking? && Me().pc.outcome != Done
                       && (Me().pc.outcome == Interrupted ==> !Calm(from, clock))
         case Lost => Me().pc == Killed && !Calm(from, clock)
    }

    lemma AccountsFrom(r: Reply, from: nat, mid: nat)
      requires id in sys.runners && from <= mid && Calm(from, mid) && Accounts(r, mid)
      ensures Accounts(r, from)
    {
      if r != Returned && !Calm(mid, clock) {
        var k: nat :| mid <= k < clock && fates(k) != Answers;
        assert from <= k < clock;
      }
    }

    /** Connects to the database. */
    constructor (c: Catalog, ghost s: System, id: int, len: nat, db: Db, lock: Option<int>, fates: nat -> Fate)
      requires c.Valid() && Inv(c, s) && id !in s.runners && len <= |c.millis| && db == s.db && lock == s.lock
      ensures Valid() && Me().pc == Waiting && clock == 0 && sys.db == s.db && sys.lock == s.lock
      ensures this.c == c && this.id == id && this.len == len && this.fates == fates && this.start == s
    {
      hide Inv, Completed, PackageStages, Planned, Apply, Replay;
      this.c, this.id, this.len, this.fates := c, id, len, fates;
      this.db, this.lock, this.tx, this.clock := db, lock, None, 0;
      this.start, this.events := s, [Arrive(id, len)];
      Connected(c, s, id, len);
      this.sys := Apply(c, s, Arrive(id, len));
    }

    /** The ghost system takes a step. */
    ghost method Mirror(e: Event)
      requires Mirrored() && e in {Acquire(id), Step(id), Fail(id), Kill(id)}
      modifies `sys, `events
      ensures Mirrored() && sys == Apply(c, old(sys), e)
    {
      hide Inv, Completed, PackageStages, Apply, Replay;
      ReplayAppend(c, start, events, e);
      AllPlanned(c, sys);
      EventKeepsGoal(c, sys, e, id);
      ApplyKeepsInv(c, sys, e);
      sys, events := Apply(c, sys, e), events + [e];
    }

    ghost method MirrorQuery()
      requires Mirrored() && Me().pc.At?
      modifies `sys, `events
      ensures Mirrored()
      ensures Planned(c, old(Me())) && (sys.db, Me()) == Next(c, old(sys.db), old(Me())) && sys.lock == old(sys.lock)
    {
      hide Inv, Completed, PackageStages, Next, Planned;
      PlanOf(c, sys, id);
      Mirror(Step(id));
    }

    /** A query as the environment treats it; what it does is up to the caller. */
    method Query() returns (r: Reply)
      requires Valid() && (Me().pc.Waiting? || Me().pc.At? || (Me().pc.Unlocking? && Me().pc.outcome != Done))
      modifies this
      ensures Valid() && clock == old(clock) + 1 && db == old(db)
      ensures r == Returned <==> fates(old(clock)) == Answers
      ensures r == Returned ==> lock == old(lock) && tx == old(tx) && sys == old(sys)
      ensures r == Threw && !old(Me().pc.Unlocking?) ==> Me().pc == Unlocking(Interrupted)
      ensures r == Threw && old(Me().pc.Unlocking?) ==> Me().pc == old(Me().pc)
      ensures r == Lost ==> Me().pc == Killed
    {
      hide Inv, Completed, PackageStages, Replay, Next, Planned;
      var fate := fates(clock);
      clock := clock + 1;
      match fate
      case Answers =>
        r := Returned;
      case Fails =>
        if !Me().pc.Unlocking? {
          Mirror(Fail(id));
        }
        r := Threw;
      case Dies =>
        Mirror(Kill(id));
        lock := if lock == Some(id) then None else lock;
        tx := None;
        r := Lost;
    }

    /** A statement outside a transaction. */
    method Statement(q: Sql, t: Target, i: nat, ghost from: Point, ghost to: Point, ghost rest: seq<Stage>)
      returns (r: Reply)
      requires Valid() && Inside(t, i, from, rest)
      requires i < |c.millis| && OnlineNext(c, db, Me(), t, i) == Auto(c, db, Me(), q, to)
      modifies this
      ensures Valid() && Accounts(r, old(clock))
      ensures r == Returned ==> Inside(t, i, to, rest) && tx == old(tx)
    {
      hide Inv, Completed, PackageStages, Replay, Next, OnlineNext, Planned, Exec;
      r := Query();
      if r == Returned {
        assert Me().stages[Me().pc.stage..][0] == Online(t, i);
        PlanOf(c, sys, id);
        OnlineQuery(c, db, Me(), t, i);
        MirrorQuery();
        match Exec(c, q, db.schema)
        case None => r := Threw;
        case Some(s) => db := db.(schema := s);
      }
    }

    /** A query that only reads. */
    method Select(t: Target, i: nat, ghost from: Point, ghost rest: seq<Stage>) returns (r: Reply)
      requires Valid() && Inside(t, i, from, rest) && i < |c.millis|
      requires OnlineNext(c, db, Me(), t, i).0 == db
      requires OnlineNext(c, db, Me(), t, i).1.pc.At? ==> OnlineNext(c, db, Me(), t, i).1.tx == tx
      modifies this
      ensures Valid() && (r != Returned ==> Accounts(r, old(clock)))
      ensures r == Returned ==> clock == old(clock) + 1 && fates(old(clock)) == Answers
      ensures r == Returned ==> db == old(db) && tx == old(tx) && Me() == OnlineNext(c, old(db), old(Me()), t, i).1
    {
      hide Inv, Completed, PackageStages, Replay, Next, OnlineNext, Planned;
      r := Query();
      if r == Returned {
        assert Me().stages[Me().pc.stage..][0] == Online(t, i);
        PlanOf(c, sys, id);
        OnlineQuery(c, db, Me(), t, i);
        MirrorQuery();
      }
    }

    /** Drops the invalid index of an online stage, if there is one, and builds it anew. */
    method RebuildIndex(t: Target, i: nat, drop: bool, ghost rest: seq<Stage>) returns (r: Reply)
      requires Valid() && Inside(t, i, if drop then Drop else Start, rest) && tx.None? && i < |c.millis|
      modifies this
      ensures Valid() && Accounts(r, old(clock))
      ensures r == Returned ==> Inside(t, i, Begin, rest) && tx.None?
    {
      hide Inv, Completed, PackageStages, Replay, Next, OnlineNext, Planned, Auto, IndexOf, Calm, Mirrored;
      r := Returned;
      if drop {
        IndexQueries(c, db, Me(), t, i);
        r := Statement(DropIndex(t), t, i, Drop, Start, rest);
        if r != Returned { return; }
      } else {
        assert Calm(clock, clock) by { AtOnce(clock); }
      }
      ghost var dropped := clock;
      IndexQueries(c, db, Me(), t, i);
      r := Statement(StartIndex(t, Built(t)), t, i, Start, Finish, rest);
      AccountsFrom(r, old(clock), dropped);
      if r != Returned { return; }
      ghost var started := clock;
      IndexQueries(c, db, Me(), t, i);
      r := Statement(FinishIndex(t), t, i, Finish, Begin, rest);
      AccountsFrom(r, old(clock), started);
    }

    lemma OneCalm(from: nat)
      ensures fates(from) == Answers ==> Calm(from, from + 1)
    {
    }

    /** A query that did not return accounts for itself. */
    lemma Disturbed(r: Reply, from: nat)
      requires id in sys.runners && r != Returned && clock == from + 1 && fates(from) != Answers
      requires r == Threw ==> Me().pc == Unlocking(Interrupted)
      requires r == Lost ==> Me().pc == Killed
      ensures Accounts(r, from)
    {
    }

    lemma CalmOf(from: nat)
      requires id in sys.runners && Accounts(Returned, from)
      ensures from <= clock && Calm(from, clock)
    {
    }

    lemma AtOnce(from: nat)
      ensures Calm(from, from)
    {
    }

    /** Inspects the index of an online stage and builds it unless it is there and valid. */
    method PrepareIndex(t: Target, i: nat, ghost rest: seq<Stage>) returns (r: Reply)
      requires Valid() && Inside(t, i, Inspect, rest) && tx.None? && i < |c.millis|
      modifies this
      ensures Valid() && Accounts(r, old(clock))
      ensures r == Returned ==> Inside(t, i, Begin, rest) && tx.None?
    {
      hide Inv, Completed, PackageStages, Replay, Next, OnlineNext, Planned, IndexOf, Mirrored;
      InspectQuery(c, db, Me(), t, i);
      r := Select(t, i, Inspect, rest);
      if r != Returned { return; }
      ghost var inspected := clock;
      var prepared := IndexOf(db.schema, t);
      if prepared.Present? && prepared.definition != Expected(t) {
        return Threw;
      }
      if !(prepared.Present? && prepared.valid) {
        r := RebuildIndex(t, i, prepared.Present? && !prepared.valid, rest);
        AccountsFrom(r, old(clock), inspected);
      }
    }

    /** The machine's side of a query of an online stage. */
    ghost method MirrorOnline(t: Target, i: nat, p: Point, rest: seq<Stage>)
      requires Mirrored() && id in sys.runners && Inside(t, i, p, rest) && i < |c.millis|
      modifies `sys, `events
      ensures Mirrored() && id in sys.runners && sys.lock == old(sys.lock)
      ensures (sys.db, Me()) == OnlineNext(c, old(sys.db), old(Me()), t, i)
    {
      hide Inv, Completed, PackageStages, Replay, Next, OnlineNext, Planned;
      assert Me().stages[Me().pc.stage..][0] == Online(t, i);
      PlanOf(c, sys, id);
      OnlineQuery(c, sys.db, Me(), t, i);
      MirrorQuery();
    }

    /** A statement inside the transaction of an online stage. */
    method StatementInTransaction(q: Sql, t: Target, i: nat, ghost j: nat, ghost rest: seq<Stage>) returns (r: Reply)
      requires Valid() && Inside(t, i, Body(j), rest) && tx.Some? && i < |c.millis|
      requires j < |BodySql(t)| && q == BodySql(t)[j]
      modifies this
      ensures r == Returned ==> Ran(c, q, old(tx), tx)
      ensures db == old(db)
      ensures Valid() && Accounts(r, old(clock))
      ensures r == Returned ==> Inside(t, i, Body(j + 1), rest) && tx.Some?
    {
      hide Inv, Completed, PackageStages, Replay, Next, OnlineNext, Planned, Mirrored, BodySql, Exec;
      r := Query();
      if r == Returned {
        BodyQueries(c, db, Me(), t, i);
        MirrorOnline(t, i, Body(j), rest);
        match Exec(c, q, tx.value.schema)
        case None => r := Threw;
        case Some(s) => tx := Some(tx.value.(schema := s));
      }
    }

    method JournalRow(t: Target, i: nat, ghost rest: seq<Stage>) returns (r: Reply)
      requires Valid() && Inside(t, i, Journal, rest) && tx.Some? && i < |c.millis|
      modifies this
      ensures r == Returned ==> Journaled(c, i, old(tx), tx)
      ensures db == old(db)
      ensures Valid() && Accounts(r, old(clock))
      ensures r == Returned ==> Inside(t, i, Commit, rest) && tx.Some?
    {
      hide Inv, Completed, PackageStages, Replay, Next, OnlineNext, Planned, Mirrored, BodySql, Exec, Advance;
      r := Query();
      if r == Returned {
        BodyQueries(c, db, Me(), t, i);
        MirrorOnline(t, i, Journal, rest);
        tx := Some(tx.value.(journal := tx.value.journal + [c.millis[i]]));
      }
    }

    method CommitStage(t: Target, i: nat, ghost rest: seq<Stage>) returns (r: Reply)
      requires Valid() && Inside(t, i, Commit, rest) && tx.Some? && i < |c.millis|
      modifies this
      ensures r == Returned ==> Some(db) == old(tx)
      ensures r != Returned ==> db == old(db)
      ensures Valid() && Accounts(r, old(clock))
      ensures r == Returned ==> Before(rest) && tx.None?
    {
      hide Inv, Completed, PackageStages, Replay, Next, OnlineNext, Planned, Mirrored, BodySql, Exec, Advance;
      r := Query();
      if r == Returned {
        BodyQueries(c, db, Me(), t, i);
        AdvanceSlices(Me(), Online(t, i), rest);
        MirrorOnline(t, i, Commit, rest);
        db, tx := tx.value, None;
      }
    }

    /** The statements of an online stage, its journal row, and the commit. */
    method TransactionBody(t: Target, i: nat, qs: seq<Sql>, ghost rest: seq<Stage>) returns (r: Reply)
      requires Valid() && Inside(t, i, Body(0), rest) && tx.Some? && i < |c.millis| && qs == BodySql(t)
      modifies this
      ensures r == Returned ==> Migrated(c, qs, i, old(tx).value, db)
      ensures r != Returned ==> db == old(db)
      ensures Valid() && Accounts(r, old(clock))
      ensures r == Returned ==> Before(rest) && tx.None?
    {
      hide Inv, Completed, PackageStages, Replay, Next, OnlineNext, Planned, Mirrored, BodySql, Exec, ExecAll, Calm;
      AtOnce(clock);
      NothingRuns(c, tx.value.schema);
      assert qs[..0] == [] && qs[..|qs|] == qs;
      for j := 0 to |qs|
        invariant Valid() && Inside(t, i, Body(j), rest) && tx.Some?
        invariant old(clock) <= clock && Calm(old(clock), clock)
        invariant db == old(db) && tx.value.journal == old(tx).value.journal
        invariant ExecAll(c, qs[..j], old(tx).value.schema) == Some(tx.value.schema)
      {
        ghost var before := clock;
        ExecAppend(c, qs[..j], qs[j], old(tx).value.schema);
        assert qs[..j + 1] == qs[..j] + [qs[j]];
        r := StatementInTransaction(qs[j], t, i, j, rest);
        AccountsFrom(r, old(clock), before);
        if r != Returned { return; }
      }
      BodyQueries(c, db, Me(), t, i);
      MirrorOnline(t, i, Body(|qs|), rest);
      ghost var ran := clock;
      r := JournalRow(t, i, rest);
      AccountsFrom(r, old(clock), ran);
      if r != Returned { return; }
      ghost var journaled := clock;
      r := CommitStage(t, i, rest);
      AccountsFrom(r, old(clock), journaled);
    }

    /** ROLLBACK after an error, which is thrown again. */
    method Rollback(ghost from: nat) returns (r: Reply)
      requires Valid() && Accounts(Threw, from)
      modifies this
      ensures db == old(db)
      ensures Valid() && r != Returned && Accounts(r, from) && clock >= old(clock)
    {
      hide Inv, Completed, PackageStages, Replay, Next, Planned, Mirrored;
      r := Query();
      if r == Returned {
        tx := None;
        r := Threw;
      }
    }

    /** The transaction that ends an online stage: its statements and its journal row, or nothing. */
    method JournaledTransaction(t: Target, i: nat, qs: seq<Sql>, ghost rest: seq<Stage>) returns (r: Reply)
      requires Valid() && Inside(t, i, Begin, rest) && tx.None? && i < |c.millis| && qs == BodySql(t)
      modifies this
      ensures r == Returned ==> Migrated(c, qs, i, old(db), db)
      ensures r != Returned ==> db == old(db)
      ensures Valid() && Accounts(r, old(clock))
      ensures r == Returned ==> Before(rest) && tx.None?
    {
      hide Inv, Completed, PackageStages, Replay, Next, OnlineNext, Planned, Mirrored, BodySql, Exec, Calm, Accounts;
      r := Query();
      if r != Returned {
        Disturbed(r, old(clock));
        return;
      }
      BodyQueries(c, db, Me(), t, i);
      MirrorOnline(t, i, Begin, rest);
      tx := Some(db);
      ghost var begun := clock;
      OneCalm(old(clock));
      r := TransactionBody(t, i, qs, rest);
      AccountsFrom(r, old(clock), begun);
      if r == Threw {
        r := Rollback(old(clock));
      }
    }

    /** Asks the journal whether the migration of an online stage is still to be done. */
    method Pending(t: Target, i: nat, ghost rest: seq<Stage>) returns (r: Reply, pending: bool)
      requires Valid() && Before([Online(t, i)] + rest) && i < |c.millis|
      modifies this
      ensures Valid() && Accounts(r, old(clock))
      ensures r == Returned && pending ==> Inside(t, i, if t == Shift then Inspect else Guard, rest) && tx.None?
      ensures r == Returned && !pending ==> Before(rest) && (rest != [] ==> tx.None?)
    {
      hide Inv, Completed, PackageStages, Replay, Next, OnlineNext, Planned, Mirrored, Advance, LatestMillis;
      assert Inside(t, i, Latest, rest);
      LatestQuery(c, db, Me(), t, i);
      AdvanceSlices(Me(), Online(t, i), rest);
      r := Select(t, i, Latest, rest);
      pending := LatestMillis(db.journal) < c.millis[i];
    }

    /** SHOW lock_timeout and its replacement by five seconds. */
    method ShortenTimeout() returns (r: Reply)
      requires Valid() && Me().pc.At?
      modifies this
      ensures Valid() && Accounts(r, old(clock))
      ensures db == old(db) && (r == Returned ==> tx == old(tx) && sys == old(sys))
    {
      hide Inv, Completed, PackageStages, Replay, Next, Planned, Mirrored;
      r := Query();
      if r == Returned {
        r := Query();
      }
    }

    /** The finally block that restores the timeout: its own error replaces that of the block. */
    method RestoreTimeout(outcome: Reply, ghost from: nat) returns (r: Reply)
      requires Valid() && Accounts(outcome, from) && (outcome == Returned ==> Me().pc.At?)
      modifies this
      ensures Valid() && Accounts(r, from)
      ensures r == Returned ==> outcome == Returned && db == old(db) && tx == old(tx) && sys == old(sys)
    {
      hide Inv, Completed, PackageStages, Replay, Next, Planned, Mirrored;
      if outcome == Lost {
        return Lost;
      }
      r := Query();
      if r == Returned {
        r := outcome;
      }
    }

    /** The stage of the offer variants before its transaction. */
    method PrepareOnlineOfferVariants(i: nat, ghost rest: seq<Stage>) returns (r: Reply)
      requires Valid() && Inside(Variant, i, Guard, rest) && tx.None? && i < |c.millis|
      modifies this
      ensures Valid() && Accounts(r, old(clock))
      ensures r == Returned ==> Inside(Variant, i, Begin, rest) && tx.None?
    {
      hide Inv, Completed, PackageStages, Replay, Next, OnlineNext, Planned, Mirrored, Auto, Calm;
      GuardQuery(c, db, Me(), i);
      OneCalm(clock);
      r := Select(Variant, i, Guard, rest);
      if r != Returned { return; }
      if c.offerTable !in db.schema.ordinary || !db.schema.oldUnique {
        return Threw;
      }
      ghost var before := clock;
      ColumnQueries(c, db, Me(), i);
      r := Statement(AddColumnIfMissing, Variant, i, Column, AddTheCheck, rest);
      AccountsFrom(r, old(clock), before);
      if r != Returned { return; }
      before := clock;
      ColumnQueries(c, db, Me(), i);
      r := Statement(AddCheckIfMissing, Variant, i, AddTheCheck, Validate, rest);
      AccountsFrom(r, old(clock), before);
      if r != Returned { return; }
      before := clock;
      ColumnQueries(c, db, Me(), i);
      r := Statement(ValidateCheck, Variant, i, Validate, Inspect, rest);
      AccountsFrom(r, old(clock), before);
      if r != Returned { return; }
      before := clock;
      r := PrepareIndex(Variant, i, rest);
      AccountsFrom(r, old(clock), before);
    }

    /** The machine's side of a query of a batch. */
    ghost method MirrorBatch(lo: nat, hi: nat, p: Point, rest: seq<Stage>)
      requires Mirrored() && id in sys.runners && InBatch(lo, hi, p, rest)
      modifies `sys, `events
      ensures Mirrored() && id in sys.runners && sys.lock == old(sys.lock)
      ensures (sys.db, Me()) == BatchNext(c, old(sys.db), old(Me()), lo, hi)
    {
      hide Inv, Completed, PackageStages, Replay, Next, BatchNext, Planned;
      assert Me().stages[Me().pc.stage..][0] == Batch(lo, hi);
      PlanOf(c, sys, id);
      BatchQuery(c, sys.db, Me(), lo, hi);
      MirrorQuery();
    }

    /** Migration m of a batch: nothing when the journal has it, else its file and its journal row. */
    method BatchStep(lo: nat, hi: nat, latest: int, m: nat, ghost rest: seq<Stage>) returns (r: Reply)
      requires Valid() && InBatch(lo, hi, Run(latest, m), rest) && tx.Some? && m < hi
      modifies this
      ensures db == old(db)
      ensures Valid() && Accounts(r, old(clock))
      ensures r == Returned ==> InBatch(lo, hi, Run(latest, m + 1), rest) && tx.Some?
    {
      hide Inv, Completed, PackageStages, Replay, Next, BatchNext, Planned, Mirrored, ExecAll, FileSql;
      r := Returned;
      if latest < c.millis[m] {
        r := Query();
        if r != Returned { return; }
        BatchQueries(c, db, Me(), lo, hi);
        MirrorBatch(lo, hi, Run(latest, m), rest);
        match ExecAll(c, FileSql(c, m), tx.value.schema)
        case None => r := Threw;
        case Some(s) => tx := Some(Db(tx.value.journal + [c.millis[m]], s));
      } else {
        BatchQueries(c, db, Me(), lo, hi);
        MirrorBatch(lo, hi, Run(latest, m), rest);
      }
    }

    method CommitBatch(lo: nat, hi: nat, ghost latest: int, ghost rest: seq<Stage>) returns (r: Reply)
      requires Valid() && InBatch(lo, hi, Run(latest, hi), rest) && tx.Some?
      modifies this
      ensures r != Returned ==> db == old(db)
      ensures Valid() && Accounts(r, old(clock))
      ensures r == Returned ==> Before(rest) && tx.None?
    {
      hide Inv, Completed, PackageStages, Replay, Next, BatchNext, Planned, Mirrored, Advance;
      r := Query();
      if r == Returned {
        BatchQueries(c, db, Me(), lo, hi);
        AdvanceSlices(Me(), Batch(lo, hi), rest);
        MirrorBatch(lo, hi, Run(latest, hi), rest);
        db, tx := tx.value, None;
      }
    }

    method BatchBody(lo: nat, hi: nat, latest: int, ghost rest: seq<Stage>) returns (r: Reply)
      requires Valid() && InBatch(lo, hi, Run(latest, lo), rest) && tx.Some?
      modifies this
      ensures r != Returned ==> db == old(db)
      ensures Valid() && Accounts(r, old(clock))
      ensures r == Returned ==> Before(rest) && tx.None?
    {
      hide Inv, Completed, PackageStages, Replay, Next, BatchNext, Planned, Mirrored, Calm;
      AtOnce(clock);
      for m := lo to hi
        invariant Valid() && InBatch(lo, hi, Run(latest, m), rest) && tx.Some?
        invariant old(clock) <= clock && Calm(old(clock), clock)
        invariant db == old(db)
      {
        ghost var before := clock;
        r := BatchStep(lo, hi, latest, m, rest);
        AccountsFrom(r, old(clock), before);
        if r != Returned { return; }
      }
      ghost var ran := clock;
      r := CommitBatch(lo, hi, latest, rest);
      AccountsFrom(r, old(clock), ran);
    }

    /** dialect.migrate of migrations lo..hi-1: asks for the latest row, then one transaction. */
    method DialectMigrate(lo: nat, hi: nat, ghost rest: seq<Stage>) returns (r: Reply)
      requires Valid() && Before([Batch(lo, hi)] + rest) && tx.None? && lo <= hi <= |c.millis|
      modifies this
      ensures r != Returned ==> db == old(db)
      ensures Valid() && Accounts(r, old(clock))
      ensures r == Returned ==> Before(rest) && tx.None?
    {
      hide Inv, Completed, PackageStages, Replay, Next, BatchNext, Planned, Mirrored, LatestMillis, Calm, Accounts;
      assert InBatch(lo, hi, Latest, rest);
      r := Query();
      if r != Returned {
        Disturbed(r, old(clock));
        return;
      }
      OneCalm(old(clock));
      BatchQueries(c, db, Me(), lo, hi);
      MirrorBatch(lo, hi, Latest, rest);
      var latest := LatestMillis(db.journal);
      ghost var asked := clock;
      r := BatchTransaction(lo, hi, latest, rest);
      AccountsFrom(r, old(clock), asked);
    }

    method BatchTransaction(lo: nat, hi: nat, latest: int, ghost rest: seq<Stage>) returns (r: Reply)
      requires Valid() && InBatch(lo, hi, BatchBegin(latest), rest) && tx.None?
      modifies this
      ensures r != Returned ==> db == old(db)
      ensures Valid() && Accounts(r, old(clock))
      ensures r == Returned ==> Before(rest) && tx.None?
    {
      hide Inv, Completed, PackageStages, Replay, Next, BatchNext, Planned, Mirrored, Calm, Accounts;
      r := Query();
      if r != Returned {
        Disturbed(r, old(clock));
        return;
      }
      OneCalm(old(clock));
      BatchQueries(c, db, Me(), lo, hi);
      MirrorBatch(lo, hi, BatchBegin(latest), rest);
      tx := Some(db);
      ghost var begun := clock;
      r := BatchBody(lo, hi, latest, rest);
      AccountsFrom(r, old(clock), begun);
      if r == Threw {
        r := Rollback(old(clock));
      }
    }

    /** The online stage of the offer variants. */
    method OnlineOfferVariants(i: nat, ghost rest: seq<Stage>) returns (r: Reply)
      requires Valid() && Before([Online(Variant, i)] + rest) && rest != [] && i < |c.millis|
      modifies this
      ensures Valid() && Accounts(r, old(clock))
      ensures r == Returned ==> Before(rest) && tx.None?
    {
      hide Inv, Completed, PackageStages, Replay, Next, Planned, Mirrored, Calm, Accounts;
      var pending;
      r, pending := Pending(Variant, i, rest);
      if r != Returned || !pending { return; }
      ghost var asked := clock;
      CalmOf(old(clock));
      r := ShortenTimeout();
      AccountsFrom(r, old(clock), asked);
      if r != Returned { return; }
      ghost var shortened := clock;
      CalmOf(old(clock));
      r := PrepareOnlineOfferVariants(i, rest);
      AccountsFrom(r, old(clock), shortened);
      if r == Returned {
        ghost var prepared := clock;
        CalmOf(old(clock));
        r := JournaledTransaction(Variant, i, [AttachVariant, DropOld], rest);
        AccountsFrom(r, old(clock), prepared);
      }
      r := RestoreTimeout(r, old(clock));
    }

    method OnlineGrantReadiness(i: nat, ghost rest: seq<Stage>) returns (r: Reply)
      requires Valid() && Before([Online(Grant, i)] + rest) && rest != [] && i < |c.millis|
      modifies this
      ensures Valid() && Accounts(r, old(clock))
      ensures r == Returned ==> Before(rest) && tx.None?
    {
      hide Inv, Completed, PackageStages, Replay, Next, OnlineNext, Planned, Mirrored, Calm, Accounts;
      var pending;
      r, pending := Pending(Grant, i, rest);
      if r != Returned || !pending { return; }
      ghost var asked := clock;
      CalmOf(old(clock));
      r := RefuseUniqueness(i, rest);
      AccountsFrom(r, old(clock), asked);
      if r != Returned { return; }
      ghost var guarded := clock;
      CalmOf(old(clock));
      r := PrepareIndex(Grant, i, rest);
      AccountsFrom(r, old(clock), guarded);
      if r != Returned { return; }
      ghost var prepared := clock;
      CalmOf(old(clock));
      r := FinalTransaction(Grant, i, [Readiness(0), AttachGrant] + LaterSql(), rest);
      AccountsFrom(r, old(clock), prepared);
    }

    /** A uniqueness that no journal row explains is refused. */
    method RefuseUniqueness(i: nat, ghost rest: seq<Stage>) returns (r: Reply)
      requires Valid() && Inside(Grant, i, Guard, rest) && tx.None? && i < |c.millis|
      modifies this
      ensures Valid() && Accounts(r, old(clock))
      ensures r == Returned ==> Inside(Grant, i, Inspect, rest) && tx.None?
    {
      hide Inv, Completed, PackageStages, Replay, Next, OnlineNext, Planned, Mirrored;
      GuardQuery(c, db, Me(), i);
      r := Select(Grant, i, Guard, rest);
      if r == Returned && (c.grantTable !in db.schema.ordinary || db.schema.grantUnique) {
        r := Threw;
      }
    }

    /** The transaction of a stage under the short timeout. */
    method FinalTransaction(t: Target, i: nat, qs: seq<Sql>, ghost rest: seq<Stage>) returns (r: Reply)
      requires Valid() && Inside(t, i, Begin, rest) && tx.None? && rest != [] && i < |c.millis| && qs == BodySql(t)
      modifies this
      ensures Valid() && Accounts(r, old(clock))
      ensures r == Returned ==> Before(rest) && tx.None?
    {
      hide Inv, Completed, PackageStages, Replay, Next, Planned, Mirrored, Calm, Accounts, BodySql;
      r := ShortenTimeout();
      if r != Returned { return; }
      ghost var shortened := clock;
      CalmOf(old(clock));
      r := JournaledTransaction(t, i, qs, rest);
      AccountsFrom(r, old(clock), shortened);
      r := RestoreTimeout(r, old(clock));
    }

    method OnlineCodeRegistryShiftIndex(i: nat, ghost rest: seq<Stage>) returns (r: Reply)
      requires Valid() && Before([Online(Shift, i)] + rest) && rest != [] && i < |c.millis|
      modifies this
      ensures Valid() && Accounts(r, old(clock))
      ensures r == Returned ==> Before(rest) && tx.None?
    {
      hide Inv, Completed, PackageStages, Replay, Next, Planned, Mirrored, Calm, Accounts;
      var pending;
      r, pending := Pending(Shift, i, rest);
      if r != Returned || !pending { return; }
      ghost var asked := clock;
      CalmOf(old(clock));
      r := PrepareIndex(Shift, i, rest);
      AccountsFrom(r, old(clock), asked);
      if r != Returned { return; }
      ghost var prepared := clock;
      CalmOf(old(clock));
      r := FinalTransaction(Shift, i, [], rest);
      AccountsFrom(r, old(clock), prepared);
    }

    /** A run of a package that holds the offer migration. */
    method MigrateWithOnlineOfferVariants(p: Positions) returns (r: Reply)
      requires Valid() && p.Within(len) && p.offer >= 0 && len <= |c.millis| && Before(Stages(len, p)) && tx.None?
      modifies this
      ensures Valid() && Accounts(r, old(clock))
      ensures r == Returned ==> Before([]) && tx.None?
    {
      hide Inv, Completed, PackageStages, Replay, Next, Planned, Mirrored, Calm, Accounts, Before,
        ValidationStages, ReadinessStages, Starts;
      r := DialectMigrate(0, p.offer, [Online(Variant, p.offer)] + ValidationStages(len, p));
      if r != Returned { return; }
      ghost var done := clock;
      CalmOf(old(clock));
      r := OnlineOfferVariants(p.offer, ValidationStages(len, p));
      AccountsFrom(r, old(clock), done);
      if r != Returned { return; }
      done := clock;
      CalmOf(old(clock));
      r := AfterOffer(p);
      AccountsFrom(r, old(clock), done);
    }

    method AfterOffer(p: Positions) returns (r: Reply)
      requires Valid() && p.Within(len) && p.offer >= 0 && len <= |c.millis|
      requires Before(ValidationStages(len, p)) && tx.None?
      modifies this
      ensures Valid() && Accounts(r, old(clock))
      ensures r == Returned ==> Before([]) && tx.None?
    {
      hide Inv, Completed, PackageStages, Replay, Next, Planned, Mirrored, Calm, Accounts, Before,
        ReadinessStages, Chained, Starts;
      var nextIndex := p.offer + 1;
      AtOnce(clock);
      if p.validation > p.offer {
        r := DialectMigrate(p.offer + 1, p.validation,
                            [Batch(p.validation, p.validation + 1)] + ReadinessStages(len, p, p.validation + 1));
        if r != Returned { return; }
        ghost var done := clock;
        CalmOf(old(clock));
        r := DialectMigrate(p.validation, p.validation + 1, ReadinessStages(len, p, p.validation + 1));
        AccountsFrom(r, old(clock), done);
        if r != Returned { return; }
        nextIndex := p.validation + 1;
        CalmOf(old(clock));
      }
      ghost var done := clock;
      r := AfterValidation(p, nextIndex);
      AccountsFrom(r, old(clock), done);
    }

    method AfterValidation(p: Positions, from: nat) returns (r: Reply)
      requires Valid() && p.Within(len) && from <= len <= |c.millis|
      requires Before(ReadinessStages(len, p, from)) && tx.None?
      modifies this
      ensures Valid() && Accounts(r, old(clock))
      ensures r == Returned ==> Before([]) && tx.None?
    {
      hide Inv, Completed, PackageStages, Replay, Next, Planned, Mirrored, Calm, Accounts, Before,
        ReplacementStages, Starts;
      var nextIndex := from;
      AtOnce(clock);
      if p.readiness >= nextIndex {
        r := DialectMigrate(nextIndex, p.readiness,
                            [Online(Grant, p.readiness)] + ReplacementStages(len, p, p.readiness + 1));
        if r != Returned { return; }
        ghost var done := clock;
        CalmOf(old(clock));
        r := OnlineGrantReadiness(p.readiness, ReplacementStages(len, p, p.readiness + 1));
        AccountsFrom(r, old(clock), done);
        if r != Returned { return; }
        nextIndex := p.readiness + 1;
        CalmOf(old(clock));
      }
      ghost var done := clock;
      r := AfterReadiness(p, nextIndex);
      AccountsFrom(r, old(clock), done);
    }

    method AfterReadiness(p: Positions, from: nat) returns (r: Reply)
      requires Valid() && p.Within(len) && from <= len <= |c.millis|
      requires Before(ReplacementStages(len, p, from)) && tx.None?
      modifies this
      ensures Valid() && Accounts(r, old(clock))
      ensures r == Returned ==> Before([]) && tx.None?
    {
      hide Inv, Completed, PackageStages, Replay, Next, Planned, Mirrored, Calm, Accounts, Before, Chained, Starts;
      var nextIndex := from;
      AtOnce(clock);
      if p.replacement >= nextIndex {
        r := DialectMigrate(nextIndex, p.replacement, ShiftStages(len, p, p.replacement));
        if r != Returned { return; }
        nextIndex := p.replacement;
        CalmOf(old(clock));
      }
      ghost var done := clock;
      if p.shift >= nextIndex {
        r := DialectMigrate(nextIndex, p.shift, [Online(Shift, p.shift)] + [Batch(p.shift + 1, len)]);
        AccountsFrom(r, old(clock), done);
        if r != Returned { return; }
        done := clock;
        CalmOf(old(clock));
        r := OnlineCodeRegistryShiftIndex(p.shift, [Batch(p.shift + 1, len)]);
        AccountsFrom(r, old(clock), done);
        if r != Returned { return; }
        nextIndex := p.shift + 1;
        done := clock;
        CalmOf(old(clock));
      }
      assert [Batch(nextIndex, len)] + [] == [Batch(nextIndex, len)];
      r := DialectMigrate(nextIndex, len, []);
      AccountsFrom(r, old(clock), done);
    }

    /** pg_advisory_unlock, whatever happened before. */
    method Unlock() returns (r: Reply)
      requires Valid() && Me().pc.Unlocking?
      modifies this
      ensures Valid() && clock == old(clock) + 1 && db == old(db)
      ensures r == Returned <==> fates(old(clock)) == Answers
      ensures r == Returned ==> Me().pc == Closing(old(Me().pc.outcome))
      ensures r == Threw ==> Me().pc == Closing(Worse(old(Me().pc.outcome)))
      ensures r == Lost ==> Me().pc == Killed
    {
      hide Inv, Completed, PackageStages, Replay, Next, Planned, Mirrored;
      var fate := fates(clock);
      clock := clock + 1;
      match fate
      case Answers =>
        Mirror(Step(id));
        lock := if lock == Some(id) then None else lock;
        r := Returned;
      case Fails =>
        Mirror(Fail(id));
        r := Threw;
      case Dies =>
        Mirror(Kill(id));
        lock := if lock == Some(id) then None else lock;
        tx := None;
        r := Lost;
    }

    /** client.release and pool.end: the session is gone and with it its lock and its transaction. */
    method Close() returns (r: Reply)
      requires Valid() && Me().pc.Closing?
      modifies this
      ensures Valid() && clock == old(clock) + 1 && db == old(db)
      ensures r == Returned <==> fates(old(clock)) == Answers
      ensures r == Returned ==> Me().pc == Finished(old(Me().pc.outcome))
      ensures r == Threw ==> Me().pc == Finished(Worse(old(Me().pc.outcome)))
      ensures r == Lost ==> Me().pc == Killed
    {
      hide Inv, Completed, PackageStages, Replay, Next, Planned, Mirrored;
      var fate := fates(clock);
      clock := clock + 1;
      lock := if lock == Some(id) then None else lock;
      tx := None;
      match fate
      case Answers =>
        Mirror(Step(id));
        r := Returned;
      case Fails =>
        Mirror(Fail(id));
        r := Threw;
      case Dies =>
        Mirror(Kill(id));
        r := Lost;
    }

    /** Takes the advisory lock, or gives up when another session holds it past the lock timeout. */
    method TakeLock() returns (r: Reply)
      requires Valid() && Me().pc == Waiting && tx.None?
      modifies this
      ensures Valid() && db == old(db) && clock >= old(clock)
      ensures r == Returned <==> Calm(old(clock), clock) && old(lock).None?
      ensures r == Returned ==> Before(PackageStages(c, len)) && tx.None?
      ensures r == Threw ==> Me().pc == Unlocking(Interrupted)
      ensures r == Lost ==> Me().pc == Killed
    {
      hide Inv, Completed, PackageStages, Replay, Next, Planned;
      WaitingIsIdle(c, sys, id);
      HasStages(c, Me());
      r := Query();
      if r != Returned { return; }
      r := Query();
      if r != Returned { return; }
      if lock.Some? {
        Mirror(Fail(id));
        return Threw;
      }
      WaitingIsIdle(c, sys, id);
      Mirror(Acquire(id));
      lock := Some(id);
      assert Me().stages[0..] == Me().stages;
    }

    /** The work under the lock. */
    method Migrate() returns (r: Reply)
      requires Valid() && Before(PackageStages(c, len)) && tx.None? && len <= |c.millis|
      modifies this
      ensures Valid() && Accounts(r, old(clock))
      ensures r == Returned ==> Me().pc == Unlocking(Done)
    {
      hide Inv, Completed, Replay, Next, Planned, Mirrored, Calm, Accounts, ValidationStages, Chained, Starts;
      var positions := PackagePositions(c, len);
      if positions.offer < 0 {
        assert [Batch(0, len)] + [] == [Batch(0, len)];
        r := DialectMigrate(0, len, []);
      } else {
        r := MigrateWithOnlineOfferVariants(positions);
      }
    }

    /** The unlocking and closing that end every run, and what the run reports. */
    method CleanUp(outcome: Reply) returns (r: Reply)
      requires Valid() && Me().pc.Unlocking? && outcome != Lost && len <= |c.millis|
      requires outcome == Returned <==> Me().pc.outcome == Done
      modifies this
      ensures Valid() && lock != Some(id) && db == old(db) && old(clock) <= clock
      ensures r == Returned ==> Calm(old(clock), clock) && outcome == Returned && Me().pc == Finished(Done)
      ensures r == Threw ==> Me().pc == Finished(Interrupted)
      ensures r == Threw ==> !Calm(old(clock), clock) || old(Me().pc) == Unlocking(Interrupted)
      ensures r == Lost ==> Me().pc == Killed && !Calm(old(clock), clock)
    {
      hide Inv, Completed, PackageStages, Replay, Next, Planned;
      var unlocked := Unlock();
      if unlocked == Lost {
        HowItEnded(c, sys, id);
        return Lost;
      }
      var closed := Close();
      HowItEnded(c, sys, id);
      if closed == Lost {
        return Lost;
      }
      r := if outcome == unlocked == closed == Returned then Returned else Threw;
    }

    /** One run of the migrator. It succeeds exactly when the lock was free and the environment let every query
        succeed: no guard and no statement ever stops it, whatever earlier runs left behind. It then has completed its
        package; an unsuccessful run leaves a database that the same package still completes, and no lock. */
    method RunRuntimeMigrations() returns (r: Reply)
      requires Valid() && Me().pc == Waiting && tx.None?
      modifies this
      ensures Valid() && lock != Some(id)
      ensures r == Returned <==> old(lock).None? && Calm(old(clock), clock)
      ensures Me().pc == match r case Returned => Finished(Done) case Threw => Finished(Interrupted) case Lost => Killed
      ensures len <= |c.millis| && Completed(c, len, db) == Completed(c, len, old(db))
      ensures r == Returned ==> db == Completed(c, len, old(db))
    {
      hide Inv, PackageStages, Replay, Next, Planned, Shape;
      r := TakeLock();
      if r == Lost {
        HowItEnded(c, sys, id);
        return;
      }
      if r == Returned {
        r := Migrate();
        if r == Lost {
          HowItEnded(c, sys, id);
          return;
        }
      }
      r := CleanUp(r);
      HowItEnded(c, sys, id);
    }
  }
}
