/** Any number of migration runners against one database, one query at a time.

    A runner is a program counter and its open transaction. The environment may start runners, let any of them make
    its next query, make that query fail, or kill it. Three facts about PostgreSQL and drizzle are built in: a batch
    runs, in one transaction, the given migrations newer than the latest journal row; an interrupted concurrent
    build leaves an invalid index; a lost session drops its lock and its open transaction. */
module MigrationProtocol {
  import opened Wrappers
  import opened MigrationSchema
  import opened MigrationPlan

  /** The journal holds the folderMillis of each row, in insertion order. */
  datatype Db = Db(journal: seq<int>, schema: Schema)

  datatype Refusal = MissingPredecessor | UnjournaledUniqueness | UnexpectedIndex

  /** `Interrupted` is an error the environment caused; `Broken` a statement PostgreSQL refused. */
  datatype Outcome = Done | Interrupted | Broken | Refused(why: Refusal)

  /** The query a runner makes next inside its current stage. */
  datatype Point =
    | Latest
    | BatchBegin(latest: int)
    | Run(latest: int, i: nat)
    | Guard
    | Column
    | AddTheCheck
    | Validate
    | Inspect
    | Drop
    | Start
    | Finish
    | Begin
    | Body(j: nat)
    | Journal
    | Commit

  datatype Pc =
    | Waiting
    | At(stage: nat, point: Point)
    | Unlocking(outcome: Outcome)
    | Closing(outcome: Outcome)
    | Finished(outcome: Outcome)
    | Killed

  /** `len` is how many migrations the runner's package holds, `stages` how its run is cut. */
  datatype Runner = Runner(len: nat, stages: seq<Stage>, pc: Pc, tx: Option<Db>)

  /** The stages lead from migration 0 to len, and online migrations have online stages. */
  ghost predicate Planned(c: Catalog, r: Runner) {
    && r.len <= |c.millis|
    && r.stages != [] && r.stages[0].Lo() == 0 && r.stages[|r.stages| - 1].Hi() == r.len
    && (forall k :: 0 <= k < |r.stages| ==>
          r.stages[k].Lo() <= r.stages[k].Hi() <= r.len && Fits(c, r.stages[k]))
    && (forall k :: 0 < k < |r.stages| ==> r.stages[k].Lo() == r.stages[k - 1].Hi())
  }

  datatype System = System(db: Db, lock: Option<int>, runners: map<int, Runner>)

  datatype Event =
    | Arrive(r: int, len: nat)
    | Acquire(r: int)
    | Step(r: int)
    | Fail(r: int)
    | Kill(r: int)

  /** ORDER BY created_at DESC LIMIT 1, with 0 for an empty journal. */
  function LatestMillis(journal: seq<int>): int {
    if journal == [] then 0
    else
      var rest := LatestMillis(journal[..|journal| - 1]);
      if journal[|journal| - 1] > rest then journal[|journal| - 1] else rest
  }

  /** The definition that the inspection of a stage accepts. */
  function Expected(t: Target): Definition {
    match t
    case Variant => Definition(true, [OfferId, OfferRevision, OfferFormat, PrintVariant])
    case Grant => Definition(true, [TenantId, ConfigurationId])
    case Shift => Definition(false, [TenantId, ShiftId, TerminalId])
  }

  /** The definition that the concurrent build of a stage writes. */
  function Built(t: Target): Definition {
    match t
    case Variant => Definition(true, [OfferId, OfferRevision, OfferFormat, PrintVariant])
    case Grant => Definition(true, [TenantId, ConfigurationId])
    case Shift => Definition(false, [TenantId, ShiftId, TerminalId])
  }

  /** The statements of the final transaction of an online stage. */
  function BodySql(t: Target): seq<Sql> {
    match t
    case Variant => [AttachVariant, DropOld]
    case Grant => [Readiness(0), AttachGrant] + LaterSql()
    case Shift => []
  }

  function Goto(r: Runner, p: Point): Runner
    requires r.pc.At?
  {
    r.(pc := At(r.pc.stage, p))
  }

  function Leave(r: Runner, o: Outcome): Runner {
    r.(pc := Unlocking(o), tx := None)
  }

  function Advance(r: Runner): Runner
    requires r.pc.At?
  {
    if r.pc.stage + 1 < |r.stages|
    then r.(pc := At(r.pc.stage + 1, Latest), tx := None)
    else Leave(r, Done)
  }

  /** A statement outside a transaction. */
  function Auto(c: Catalog, d: Db, r: Runner, q: Sql, p: Point): (Db, Runner)
    requires r.pc.At?
  {
    match Exec(c, q, d.schema)
    case None => (d, Leave(r, Broken))
    case Some(s) => (d.(schema := s), Goto(r, p))
  }

  /** Statements inside the open transaction, with the journal rows they add. */
  function InTx(c: Catalog, r: Runner, qs: seq<Sql>, rows: seq<int>, p: Point): Runner
    requires r.pc.At?
  {
    if r.tx.None? then Leave(r, Broken)
    else match ExecAll(c, qs, r.tx.value.schema)
         case None => Leave(r, Broken)
         case Some(s) => Goto(r.(tx := Some(Db(r.tx.value.journal + rows, s))), p)
  }

  function CommitTx(c: Catalog, d: Db, r: Runner): (Db, Runner)
    requires r.pc.At?
  {
    if r.tx.None? then (d, Leave(r, Broken)) else (r.tx.value, Advance(r))
  }

  function BatchNext(c: Catalog, d: Db, r: Runner, lo: nat, hi: nat): (Db, Runner)
    requires r.pc.At? && hi <= |c.millis|
  {
    match r.pc.point
    case Latest => (d, Goto(r, BatchBegin(LatestMillis(d.journal))))
    case BatchBegin(latest) => (d, Goto(r.(tx := Some(d)), Run(latest, lo)))
    case Run(latest, i) =>
      if i >= hi then CommitTx(c, d, r)
      else if latest < c.millis[i] then (d, InTx(c, r, FileSql(c, i), [c.millis[i]], Run(latest, i + 1)))
      else (d, Goto(r, Run(latest, i + 1)))
    case _ => (d, Leave(r, Broken))
  }

  function OnlineNext(c: Catalog, d: Db, r: Runner, t: Target, i: nat): (Db, Runner)
    requires r.pc.At? && i < |c.millis|
  {
    match r.pc.point
    case Latest =>
      (d, if LatestMillis(d.journal) >= c.millis[i] then Advance(r)
          else Goto(r, if t == Shift then Inspect else Guard))
    case Guard =>
      (d, match t
          case Variant =>
            if c.offerTable !in d.schema.ordinary then Leave(r, Broken)
            else if !d.schema.oldUnique then Leave(r, Refused(MissingPredecessor)) else Goto(r, Column)
          case Grant =>
            if c.grantTable !in d.schema.ordinary then Leave(r, Broken)
            else if d.schema.grantUnique then Leave(r, Refused(UnjournaledUniqueness)) else Goto(r, Inspect)
          case Shift => Leave(r, Broken))
    case Column => Auto(c, d, r, AddColumnIfMissing, AddTheCheck)
    case AddTheCheck => Auto(c, d, r, AddCheckIfMissing, Validate)
    case Validate => Auto(c, d, r, ValidateCheck, Inspect)
    case Inspect =>
      (d, match IndexOf(d.schema, t)
          case Absent => Goto(r, Start)
          case Present(valid, definition) =>
            if definition != Expected(t) then Leave(r, Refused(UnexpectedIndex))
            else Goto(r, if valid then Begin else Drop))
    case Drop => Auto(c, d, r, DropIndex(t), Start)
    case Start => Auto(c, d, r, StartIndex(t, Built(t)), Finish)
    case Finish => Auto(c, d, r, FinishIndex(t), Begin)
    case Begin => (d, Goto(r.(tx := Some(d)), Body(0)))
    case Body(j) =>
      (d, if j < |BodySql(t)| then InTx(c, r, [BodySql(t)[j]], [], Body(j + 1)) else Goto(r, Journal))
    case Journal => (d, InTx(c, r, [], [c.millis[i]], Commit))
    case Commit => CommitTx(c, d, r)
    case _ => (d, Leave(r, Broken))
  }

  /** The next query of a runner inside its stage, when the environment lets it succeed. */
  function Next(c: Catalog, d: Db, r: Runner): (Db, Runner)
    requires Planned(c, r) && r.pc.At?
  {
    if r.pc.stage >= |r.stages| then (d, Leave(r, Broken))
    else
      match r.stages[r.pc.stage]
      case Batch(lo, hi) => BatchNext(c, d, r, lo, hi)
      case Online(t, i) => OnlineNext(c, d, r, t, i)
  }

  /** A chain read by index. */
  lemma {:induction false} ChainByIndex(stages: seq<Stage>, lo: nat, hi: nat)
    requires Chained(stages, lo, hi)
    ensures stages != [] && stages[0].Lo() == lo && stages[|stages| - 1].Hi() == hi
    ensures lo <= hi
    ensures forall k :: 0 <= k < |stages| ==> stages[k].Lo() <= stages[k].Hi() <= hi
    ensures forall k :: 0 < k < |stages| ==> stages[k].Lo() == stages[k - 1].Hi()
  {
    if |stages| <= 1 {
    } else {
      var rest := stages[1..];
      ChainByIndex(rest, stages[0].Hi(), hi);
      forall k | 0 <= k < |stages|
        ensures stages[k].Lo() <= stages[k].Hi() <= hi && (k > 0 ==> stages[k].Lo() == stages[k - 1].Hi())
      {
        if k > 0 {
          assert stages[k] == rest[k - 1];
          if k > 1 { assert stages[k - 1] == rest[k - 2]; }
        }
      }
    }
  }

  /** A runner that has just connected. */
  function NewRunner(c: Catalog, len: nat): (r: Runner)
    requires c.Placed() && len <= |c.millis|
    ensures Planned(c, r)
  {
    var stages := PackageStages(c, len);
    assert Planned(c, Runner(len, stages, Waiting, None)) by {
      PackageStagesFit(c, len);
      ChainByIndex(stages, 0, len);
    }
    Runner(len, stages, Waiting, None)
  }

  function Release(s: System, r: int): Option<int> {
    if s.lock == Some(r) then None else s.lock
  }

  /** An error reported while cleaning up turns success into failure and hides behind an earlier one. */
  function Worse(o: Outcome): Outcome {
    if o == Done then Interrupted else o
  }

  /** One event; an event that is not enabled changes nothing. */
  function Apply(c: Catalog, s: System, e: Event): System
    requires c.Placed() && forall r :: r in s.runners ==> Planned(c, s.runners[r])
  {
    match e
    case Arrive(r, len) =>
      if r in s.runners || len > |c.millis| then s
      else s.(runners := s.runners[r := NewRunner(c, len)])
    case Acquire(r) =>
      if r !in s.runners || s.runners[r].pc != Waiting || s.lock.Some? then s
      else s.(lock := Some(r), runners := s.runners[r := s.runners[r].(pc := At(0, Latest))])
    case Step(r) =>
      if r !in s.runners then s
      else
        var me := s.runners[r];
        (match me.pc
         case At(_, _) =>
           var (d, next) := Next(c, s.db, me);
           s.(db := d, runners := s.runners[r := next])
         case Unlocking(o) => s.(lock := Release(s, r), runners := s.runners[r := me.(pc := Closing(o))])
         case Closing(o) => s.(lock := Release(s, r), runners := s.runners[r := me.(pc := Finished(o))])
         case _ => s)
    case Fail(r) =>
      if r !in s.runners then s
      else
        var me := s.runners[r];
        (match me.pc
         case Waiting => s.(runners := s.runners[r := Leave(me, Interrupted)])
         case At(_, _) => s.(runners := s.runners[r := Leave(me, Interrupted)])
         case Unlocking(o) => s.(runners := s.runners[r := me.(pc := Closing(Worse(o)))])
         case Closing(o) =>
           s.(lock := Release(s, r), runners := s.runners[r := me.(pc := Finished(Worse(o)))])
         case _ => s)
    case Kill(r) =>
      if r !in s.runners || s.runners[r].pc.Finished? then s
      else s.(lock := Release(s, r), runners := s.runners[r := s.runners[r].(pc := Killed, tx := None)])
  }
}
