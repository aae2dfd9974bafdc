/** What every run of the protocol keeps, and what one undisturbed run achieves. */
module MigrationSafety {
  import opened Wrappers
  import opened MigrationSchema
  import opened MigrationPlan
  import opened MigrationProtocol
  import opened MigrationInvariant

  /** No runner yet, and a database that drizzle brought to its first k migrations. */
  function Initial(c: Catalog, k: nat): System
    requires k <= |c.millis|
  {
    System(Db(c.millis[..k], Shape(c, k)), None, map[])
  }

  lemma InitialOk(c: Catalog, k: nat)
    requires c.Placed() && k <= |c.millis|
    ensures Inv(c, Initial(c, k))
  {
  }

  /** Runners other than `id` see only changes that cannot hurt them. */
  lemma OthersOk(c: Catalog, s: System, s': System, id: int)
    requires c.Placed() && Inv(c, s) && id in s'.runners
    requires Consistent(c, s'.db) && s.db.journal <= s'.db.journal
    requires s'.runners == s.runners[id := s'.runners[id]]
    requires s'.db == s.db || s.lock == Some(id)
    requires s'.lock == s.lock || s.lock.None? || s.lock == Some(id)
    requires s'.lock == s.lock || s'.lock.None? || s'.lock == Some(id)
    requires RunnerOk(c, s', id)
    ensures Inv(c, s')
  {
    hide Consistent, Local, Planned;
    forall o | o in s'.runners ensures RunnerOk(c, s', o) {
      if o != id {
        assert RunnerOk(c, s, o);
      }
    }
  }

  lemma StepKeepsInv(c: Catalog, s: System, id: int)
    requires c.Valid() && Inv(c, s)
    ensures Inv(c, Apply(c, s, Step(id)))
    ensures s.db.journal <= Apply(c, s, Step(id)).db.journal
  {
    hide Consistent, Local, Planned, Next;
    if id in s.runners {
      var s' := Apply(c, s, Step(id));
      assert RunnerOk(c, s, id);
      if s.runners[id].pc.At? {
        NextOk(c, s.db, s.runners[id]);
      } else {
        SamePlan(c, s.runners[id], s'.runners[id]);
      }
      if s' != s {
        OthersOk(c, s, s', id);
      }
    }
  }

  lemma FirstPointOk(c: Catalog, d: Db, r: Runner)
    requires Planned(c, r) && r.tx.None? && Consistent(c, d)
    ensures Planned(c, r.(pc := At(0, Latest))) && Local(c, d, r.(pc := At(0, Latest)))
  {
  }

  /** An old runner keeps its plan whatever it does next. */
  lemma SamePlan(c: Catalog, r: Runner, r': Runner)
    requires Planned(c, r) && r'.len == r.len && r'.stages == r.stages
    ensures Planned(c, r')
  {
  }

  /** Every event keeps the invariant and never shortens the journal. */
  lemma ApplyKeepsInv(c: Catalog, s: System, e: Event)
    requires c.Valid() && Inv(c, s)
    ensures Inv(c, Apply(c, s, e))
    ensures s.db.journal <= Apply(c, s, e).db.journal
  {
    hide Consistent, Local, Planned, Next;
    if e.Step? {
      StepKeepsInv(c, s, e.r);
    } else {
      var s' := Apply(c, s, e);
      if s' != s {
        if e.r in s.runners {
          assert RunnerOk(c, s, e.r);
          SamePlan(c, s.runners[e.r], s'.runners[e.r]);
        }
        if e.Acquire? {
          FirstPointOk(c, s.db, s.runners[e.r]);
        }
        OthersOk(c, s, s', e.r);
      }
    }
  }

  /** The system after a sequence of events: any interleaving of runners, failures and kills. */
  ghost function Replay(c: Catalog, s: System, events: seq<Event>): System
    requires c.Valid() && Inv(c, s)
    decreases |events|
  {
    if events == [] then s
    else
      ApplyKeepsInv(c, s, events[0]);
      Replay(c, Apply(c, s, events[0]), events[1..])
  }

  lemma AllPlanned(c: Catalog, s: System)
    requires c.Placed() && Inv(c, s)
    ensures forall r :: r in s.runners ==> Planned(c, s.runners[r])
  {
    hide Planned, Local, Consistent;
    forall r | r in s.runners ensures Planned(c, s.runners[r]) {
      assert RunnerOk(c, s, r);
    }
  }

  /** The invariant holds after any events, and the journal has only grown. */
  lemma {:induction false} ReplayKeepsInv(c: Catalog, s: System, events: seq<Event>)
    requires c.Valid() && Inv(c, s)
    ensures Inv(c, Replay(c, s, events)) && s.db.journal <= Replay(c, s, events).db.journal
    decreases |events|
  {
    hide Inv, Apply;
    if events == [] {
    } else {
      AllPlanned(c, s);
      ApplyKeepsInv(c, s, events[0]);
      ReplayKeepsInv(c, Apply(c, s, events[0]), events[1..]);
    }
  }

  ghost function Reached(c: Catalog, k: nat, events: seq<Event>): System
    requires c.Valid() && k <= |c.millis|
  {
    InitialOk(c, k);
    Replay(c, Initial(c, k), events)
  }

  lemma ReachedOk(c: Catalog, k: nat, events: seq<Event>)
    requires c.Valid() && k <= |c.millis|
    ensures Inv(c, Reached(c, k, events)) && c.millis[..k] <= Reached(c, k, events).db.journal
  {
    hide Inv, Apply;
    InitialOk(c, k);
    ReplayKeepsInv(c, Initial(c, k), events);
  }

  /** In every state that any interleaving of runners, failed queries and kills can reach, the journal is the
      beginning of the catalog, and the statements of exactly the journaled migrations have run, once each and in
      order. */
  lemma JournalMatchesEffects(c: Catalog, k: nat, events: seq<Event>)
    requires c.Valid() && k <= |c.millis|
    ensures var d, n := Reached(c, k, events).db, |Reached(c, k, events).db.journal|;
      && k <= n <= |c.millis| && d.journal == c.millis[..n]
      && d.schema.ordinary == OrdinaryBelow(c, n)
      && d.schema.readiness == (if c.readiness < n then AllParts() else [])
      && d.schema.variantUnique == (c.offer < n) && d.schema.grantUnique == (c.readiness < n)
  {
    ReachedOk(c, k, events);
  }

  /** In every reachable state the offer documents are protected by the old or by the new uniqueness, and a
      journaled online stage has its index, built to the end. */
  lemma UniquenessAlwaysHolds(c: Catalog, k: nat, events: seq<Event>)
    requires c.Valid() && k <= |c.millis|
    ensures var d, n := Reached(c, k, events).db, |Reached(c, k, events).db.journal|;
      && (c.offerTable < n ==> d.schema.oldUnique || d.schema.variantUnique)
      && (d.schema.variantUnique ==>
            d.schema.variantIndex == Present(true, Expected(Variant)) && d.schema.check == Validated)
      && (c.offer < n ==> d.schema.variantUnique)
      && (c.readiness < n ==> d.schema.grantUnique)
      && (c.shift < n ==> d.schema.shiftIndex == Present(true, Expected(Shift)))
  {
    ReachedOk(c, k, events);
  }

  /** The only event that drops the old uniqueness is the commit that adds the new one and the journal row. */
  lemma OldUniquenessDroppedOnlyBySwap(c: Catalog, k: nat, events: seq<Event>, e: Event)
    requires c.Valid() && k <= |c.millis|
    ensures Inv(c, Reached(c, k, events))
    ensures var s := Reached(c, k, events);
      var d, d' := s.db, Apply(c, s, e).db;
      d.schema.oldUnique && !d'.schema.oldUnique ==>
        !d.schema.variantUnique && d'.schema.variantUnique && d'.journal == d.journal + [c.millis[c.offer]]
  {
    ReachedOk(c, k, events);
    var s := Reached(c, k, events);
    if e.Step? && e.r in s.runners && s.runners[e.r].pc.At? {
      assert RunnerOk(c, s, e.r);
      NextOk(c, s.db, s.runners[e.r]);
    }
  }

  ghost predicate EndedWith(r: Runner, o: Outcome) {
    r.pc == Unlocking(o) || r.pc == Closing(o) || r.pc == Finished(o)
  }

  /** No run ever ends because a guard refused the state it found or because PostgreSQL rejected a statement; the
      only errors are those the environment caused. A run that ends well left its whole package journaled, and it
      still is. At most one runner is working, and that one holds the lock; a run about to report success has given it
      back. */
  lemma RunsEndWell(c: Catalog, k: nat, events: seq<Event>, id: int)
    requires c.Valid() && k <= |c.millis|
    requires id in Reached(c, k, events).runners
    ensures Inv(c, Reached(c, k, events))
    ensures var s := Reached(c, k, events);
      && !EndedWith(s.runners[id], Broken)
      && (forall why :: !EndedWith(s.runners[id], Refused(why)))
      && (EndedWith(s.runners[id], Done) ==> c.millis[..s.runners[id].len] <= s.db.journal)
      && (s.runners[id].pc.At? ==> s.lock == Some(id))
      && (s.runners[id].pc == Closing(Done) || s.runners[id].pc.Finished? ==> s.lock != Some(id))
  {
    ReachedOk(c, k, events);
    var s := Reached(c, k, events);
    assert RunnerOk(c, s, id);
    assert s.db.journal == c.millis[..|s.db.journal|];
  }

  ghost function StageRank(r: Runner): nat {
    match r.pc
    case At(k, _) => if k < |r.stages| then |r.stages| - k + 2 else 3
    case Unlocking(_) => 2
    case Closing(_) => 1
    case _ => 0
  }

  ghost function PointRank(r: Runner): nat {
    if !(r.pc.At? && r.pc.stage < |r.stages|) then 0
    else
      match r.stages[r.pc.stage]
      case Batch(lo, hi) =>
        (match r.pc.point
         case Latest => (if lo <= hi then hi - lo else 0) + 2
         case BatchBegin(_) => (if lo <= hi then hi - lo else 0) + 1
         case Run(_, i) => if i <= hi then hi - i else 0
         case _ => 0)
      case Online(t, _) =>
        (match r.pc.point
         case Latest => |BodySql(t)| + 12
         case Guard => |BodySql(t)| + 11
         case Column => |BodySql(t)| + 10
         case AddTheCheck => |BodySql(t)| + 9
         case Validate => |BodySql(t)| + 8
         case Inspect => |BodySql(t)| + 7
         case Drop => |BodySql(t)| + 6
         case Start => |BodySql(t)| + 5
         case Finish => |BodySql(t)| + 4
         case Begin => |BodySql(t)| + 3
         case Body(j) => (if j <= |BodySql(t)| then |BodySql(t)| - j else 0) + 2
         case Journal => 1
         case _ => 0)
  }

  ghost predicate Smaller(r': Runner, r: Runner) {
    StageRank(r') < StageRank(r) || (StageRank(r') == StageRank(r) && PointRank(r') < PointRank(r))
  }

  /** Every successful query brings the run nearer to its end. */
  lemma NextSmaller(c: Catalog, d: Db, r: Runner)
    requires Planned(c, r) && r.pc.At? && Local(c, d, r)
    ensures Smaller(Next(c, d, r).1, r)
  {
    if r.stages[r.pc.stage].Batch? {
      BatchSmaller(c, d, r);
    } else {
      OnlineSmaller(c, d, r);
    }
  }

  lemma BatchSmaller(c: Catalog, d: Db, r: Runner)
    requires Planned(c, r) && r.pc.At? && Local(c, d, r) && r.stages[r.pc.stage].Batch?
    ensures Smaller(Next(c, d, r).1, r)
  {
    hide SchemaOk, Exec, ExecAll, Consistent, OnlineNext, OnlineLocal;
  }

  lemma OnlineSmaller(c: Catalog, d: Db, r: Runner)
    requires Planned(c, r) && r.pc.At? && Local(c, d, r) && r.stages[r.pc.stage].Online?
    ensures Smaller(Next(c, d, r).1, r)
  {
    hide SchemaOk, Exec, ExecAll, Consistent, BatchNext, OnlineNext, BatchLocal, OnlineLocal, Planned, Smaller;
    var p := r.pc.point;
    var Online(t, i) := r.stages[r.pc.stage];
    OnlineIndex(c, r, t, i);
    if p in {Column, AddTheCheck, Validate, Drop, Start, Finish} {
      StatementSmaller(c, d, r, t, i);
    } else if p.Body? || p == Journal || p == Commit {
      TransactionSmaller(c, d, r, t, i);
    } else {
      ReadSmaller(c, d, r, t, i);
    }
  }

  lemma OnlineIndex(c: Catalog, r: Runner, t: Target, i: nat)
    requires Planned(c, r) && r.pc.At? && r.pc.stage < |r.stages| && r.stages[r.pc.stage] == Online(t, i)
    ensures i < |c.millis|
  {
  }

  /** A query that only reads, or begins the transaction. */
  lemma ReadSmaller(c: Catalog, d: Db, r: Runner, t: Target, i: nat)
    requires r.pc.At? && r.pc.stage < |r.stages| && r.stages[r.pc.stage] == Online(t, i) && i < |c.millis|
    requires !(r.pc.point in {Column, AddTheCheck, Validate, Drop, Start, Finish})
    requires !(r.pc.point.Body? || r.pc.point == Journal || r.pc.point == Commit)
    ensures Smaller(OnlineNext(c, d, r, t, i).1, r)
  {
    hide Auto, InTx, CommitTx, BodySql, IndexOf, LatestMillis;
  }

  lemma StatementSmaller(c: Catalog, d: Db, r: Runner, t: Target, i: nat)
    requires r.pc.At? && r.pc.stage < |r.stages| && r.stages[r.pc.stage] == Online(t, i) && i < |c.millis|
    requires r.pc.point in {Column, AddTheCheck, Validate, Drop, Start, Finish}
    ensures Smaller(OnlineNext(c, d, r, t, i).1, r)
  {
    hide InTx, CommitTx, Advance, BodySql, Exec, IndexOf, LatestMillis;
  }

  lemma TransactionSmaller(c: Catalog, d: Db, r: Runner, t: Target, i: nat)
    requires r.pc.At? && r.pc.stage < |r.stages| && r.stages[r.pc.stage] == Online(t, i) && i < |c.millis|
    requires r.pc.point.Body? || r.pc.point == Journal || r.pc.point == Commit
    ensures Smaller(OnlineNext(c, d, r, t, i).1, r)
  {
    hide Auto, BodySql, ExecAll, IndexOf, LatestMillis;
  }

  lemma JournalIsPrefix(c: Catalog, d: Db)
    requires Consistent(c, d)
    ensures d.journal == c.millis[..|d.journal|]
  {
  }

  predicate Working(r: Runner) {
    r.pc.At? || r.pc.Unlocking? || r.pc.Closing?
  }

  lemma StepSmaller(c: Catalog, s: System, id: int)
    requires c.Valid() && Inv(c, s) && id in s.runners && Working(s.runners[id])
    ensures Smaller(Apply(c, s, Step(id)).runners[id], s.runners[id])
  {
    assert RunnerOk(c, s, id);
    if s.runners[id].pc.At? {
      NextSmaller(c, s.db, s.runners[id]);
    }
  }

  /** Runner `id` makes all its remaining queries, undisturbed. */
  ghost function Alone(c: Catalog, s: System, id: int): (t: System)
    requires c.Valid() && Inv(c, s) && id in s.runners
    ensures Inv(c, t) && t.runners.Keys == s.runners.Keys
    decreases StageRank(s.runners[id]), PointRank(s.runners[id])
  {
    hide Inv, Next, StageRank, PointRank, Planned;
    AllPlanned(c, s);
    if !Working(s.runners[id]) then s
    else
      StepKeepsInv(c, s, id);
      StepSmaller(c, s, id);
      Alone(c, Apply(c, s, Step(id)), id)
  }

  /** What a run with a package of len migrations makes of database d. */
  ghost function Completed(c: Catalog, len: nat, d: Db): Db
    requires len <= |c.millis|
  {
    if len <= |d.journal| then d else Db(c.millis[..len], Shape(c, len))
  }

  /** The runner is on its way to a good end. */
  predicate DoingWell(r: Runner) {
    r.pc.At? || r.pc in {Unlocking(Done), Closing(Done), Finished(Done)}
  }

  /** One step of a run that does well changes nothing of what the run is going to achieve. */
  lemma StepDoesWell(c: Catalog, s: System, id: int)
    requires c.Valid() && Inv(c, s) && id in s.runners && s.runners[id].len <= |c.millis|
    requires DoingWell(s.runners[id])
    ensures var s1 := Apply(c, s, Step(id));
      && Inv(c, s1) && s1.runners.Keys == s.runners.Keys
      && s1.runners[id].len == s.runners[id].len && DoingWell(s1.runners[id])
      && Completed(c, s.runners[id].len, s1.db) == Completed(c, s.runners[id].len, s.db)
      && (s1.runners[id].pc == Finished(Done) ==> s1.db == Completed(c, s.runners[id].len, s.db))
      && (forall o :: o in s.runners && o != id ==> s1.runners[o] == s.runners[o])
  {
    hide Consistent, Local, Planned, Next, SchemaOk, Shape;
    assert RunnerOk(c, s, id);
    StepKeepsInv(c, s, id);
    if s.runners[id].pc.At? {
      NextOk(c, s.db, s.runners[id]);
      JournalIsPrefix(c, Apply(c, s, Step(id)).db);
    }
  }

  lemma {:induction false} AloneReaches(c: Catalog, s: System, id: int)
    requires c.Valid() && Inv(c, s) && id in s.runners && s.runners[id].len <= |c.millis|
    requires s.runners[id].pc.At? || s.runners[id].pc in {Unlocking(Done), Closing(Done)}
    ensures var t := Alone(c, s, id);
      && t.runners[id].pc == Finished(Done)
      && t.db == Completed(c, s.runners[id].len, s.db)
      && (forall o :: o in s.runners && o != id ==> t.runners[o] == s.runners[o])
    decreases StageRank(s.runners[id]), PointRank(s.runners[id])
  {
    hide Inv, Apply, Completed, StageRank, PointRank, Next;
    AllPlanned(c, s);
    var s1 := Apply(c, s, Step(id));
    StepDoesWell(c, s, id);
    StepSmaller(c, s, id);
    AllPlanned(c, s1);
    if !Working(s1.runners[id]) {
      assert Alone(c, s1, id) == s1;
    } else {
      AloneReaches(c, s1, id);
    }
  }

  /** Kills whoever holds the lock, so that a new runner need not wait. */
  ghost function FreeLock(c: Catalog, s: System): System
    requires c.Valid() && Inv(c, s)
  {
    if s.lock.Some? then Apply(c, s, Kill(s.lock.value)) else s
  }

  /** After any interleaving of runners, failures and kills, one undisturbed run of a newer package succeeds and
      leaves the schema that the migration files, run in order on an empty database, produce; a run whose package
      is already journaled succeeds and changes nothing. */
  lemma UndisturbedRunCompletes(c: Catalog, k: nat, events: seq<Event>, id: int, len: nat)
    requires c.Valid() && k <= |c.millis| && len <= |c.millis|
    requires id !in Reached(c, k, events).runners
    ensures Inv(c, Reached(c, k, events))
    ensures var s := FreeLock(c, Reached(c, k, events));
      Inv(c, s) && Inv(c, Apply(c, s, Arrive(id, len)))
    ensures var s := FreeLock(c, Reached(c, k, events));
      var started := Apply(c, Apply(c, s, Arrive(id, len)), Acquire(id));
      && Inv(c, started) && id in started.runners
      && var t := Alone(c, started, id);
      && t.runners[id].pc == Finished(Done)
      && (len <= |s.db.journal| ==> t.db == s.db)
      && (len > |s.db.journal| ==> t.db.journal == c.millis[..len] && Canonical(c, len) == Some(t.db.schema))
  {
    hide Consistent, Local, Planned, Next, Canonical;
    var r := Reached(c, k, events);
    ReachedOk(c, k, events);
    var s := FreeLock(c, r);
    if r.lock.Some? {
      ApplyKeepsInv(c, r, Kill(r.lock.value));
      assert RunnerOk(c, r, r.lock.value);
      assert s.lock.None?;
    }
    ApplyKeepsInv(c, s, Arrive(id, len));
    var arrived := Apply(c, s, Arrive(id, len));
    ApplyKeepsInv(c, arrived, Acquire(id));
    var started := Apply(c, arrived, Acquire(id));
    AloneReaches(c, started, id);
    CanonicalShape(c, len);
  }

  // What the guards are for: databases that no run left behind.

  /** A run may fail or be killed wherever it is, and then loses its open transaction and nothing else. */
  lemma AnyRunMayStop(c: Catalog, s: System, id: int)
    requires c.Placed() && Inv(c, s) && id in s.runners
    ensures !s.runners[id].pc.Finished? ==>
      var t := Apply(c, s, Kill(id));
      t.runners[id].pc == Killed && t.runners[id].tx.None? && t.lock != Some(id) && t.db == s.db
    ensures !s.runners[id].pc.Finished? && !s.runners[id].pc.Killed? ==>
      var t := Apply(c, s, Fail(id));
      && t.db == s.db && t.runners[id].pc != s.runners[id].pc
      && !EndedWith(t.runners[id], Done) && (t.runners[id].pc.Finished? ==> t.lock != Some(id))
  {
    hide Planned, Local, Consistent, Next;
    AllPlanned(c, s);
    assert RunnerOk(c, s, id);
  }

  /** Whether an online stage is skipped is decided by the latest row alone, whatever other rows there are. */
  lemma LatestRowDecides(c: Catalog, d: Db, r: Runner, t: Target, i: nat)
    requires Planned(c, r) && r.pc.At? && r.pc.stage < |r.stages| && r.stages[r.pc.stage] == Online(t, i)
    requires r.pc.point == Latest
    ensures var (d', r') := Next(c, d, r);
      && d' == d
      && (r'.pc.At? && r'.pc.stage == r.pc.stage <==> LatestMillis(d.journal) < c.millis[i])
      && (r'.pc.At? && r'.pc.stage == r.pc.stage ==> r'.pc.point == if t == Shift then Inspect else Guard)
  {
    hide LatestMillis;
  }

  /** Whatever the database is, a pending online stage stops at its guard with an untouched database exactly when the
      database was changed by hand: the table is there and the uniqueness to be replaced is missing, or the uniqueness
      to be added is there without a journal row. */
  lemma GuardsRefuseIff(c: Catalog, d: Db, r: Runner, t: Target, i: nat)
    requires Planned(c, r) && r.pc.At? && r.pc.stage < |r.stages| && r.stages[r.pc.stage] == Online(t, i)
    requires r.pc.point == Guard && t != Shift
    ensures var (d', r') := Next(c, d, r);
      && d' == d
      && (r'.pc == Unlocking(Refused(MissingPredecessor)) <==>
            t == Variant && c.offerTable in d.schema.ordinary && !d.schema.oldUnique)
      && (r'.pc == Unlocking(Refused(UnjournaledUniqueness)) <==>
            t == Grant && c.grantTable in d.schema.ordinary && d.schema.grantUnique)
      && (r'.pc.Unlocking? ==> r'.pc.outcome.Refused? || r'.pc.outcome == Broken)
      && (r'.pc.At? ==> r'.tx == r.tx)
  {
  }

  /** An index of another definition under the prepared name is neither dropped nor used: the run is refused and the
      database left as it is; one of the expected definition never is a reason to refuse. */
  lemma InspectionRefusesIff(c: Catalog, d: Db, r: Runner, t: Target, i: nat)
    requires Planned(c, r) && r.pc.At? && r.pc.stage < |r.stages| && r.stages[r.pc.stage] == Online(t, i)
    requires r.pc.point == Inspect
    ensures var (d', r') := Next(c, d, r);
      && d' == d
      && (r'.pc == Unlocking(Refused(UnexpectedIndex)) <==>
            IndexOf(d.schema, t).Present? && IndexOf(d.schema, t).definition != Filed(t))
      && (r'.pc.Unlocking? ==> r'.pc == Unlocking(Refused(UnexpectedIndex)))
      && (r'.pc.At? ==> r'.pc.point in {Start, Begin, Drop})
      && (r'.pc.At? && r'.pc.point == Begin ==> IndexOf(d.schema, t) == Present(true, Filed(t)))
      && (r'.pc.At? && r'.pc.point == Drop ==> IndexOf(d.schema, t) == Present(false, Filed(t)))
  {
  }

  /** No transaction of a packaged run adds a constraint and scans for it. */
  lemma PackagedValidationsApart(c: Catalog, n: nat, s: Stage)
    requires c.Placed() && s in PackageStages(c, n)
    ensures c.validation < n ==> !(s.Holds(c.validation - 1) && s.Holds(c.validation))
    ensures c.replacement < n ==> !(s.Holds(c.replacement - 1) && s.Holds(c.replacement))
  {
    hide Stages;
    PackageStagesFit(c, n);
    ValidationsStandApart(n, PackagePositions(c, n), s);
  }

  /** The latest row is a largest one, or 0 without rows above it. */
  lemma {:induction false} LatestIsLargest(journal: seq<int>)
    ensures forall row :: row in journal ==> row <= LatestMillis(journal)
    ensures LatestMillis(journal) in journal || LatestMillis(journal) == 0
    ensures LatestMillis(journal) >= 0
  {
    if journal == [] {
    } else {
      var init := journal[..|journal| - 1];
      LatestIsLargest(init);
      assert journal == init + [journal[|journal| - 1]];
    }
  }
}
