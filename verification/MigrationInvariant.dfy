/** What holds of the database and of every runner at every moment, and that every event keeps it. */
module MigrationInvariant {
  import opened Wrappers
  import opened MigrationSchema
  import opened MigrationPlan
  import opened MigrationProtocol

  /** The canonical schema of k migrations, except for what an unfinished online stage k may have left behind. */
  ghost predicate SchemaOk(c: Catalog, k: nat, s: Schema) {
    var shape := Shape(c, k);
    && s == shape.(column := s.column, check := s.check, variantIndex := s.variantIndex,
                   grantIndex := s.grantIndex, shiftIndex := s.shiftIndex)
    && (if k == c.offer
        then (s.check != NoCheck ==> s.column)
             && (s.variantIndex.Present? ==> s.variantIndex.definition == Expected(Variant) && s.check == Validated)
        else s.column == shape.column && s.check == shape.check && s.variantIndex == shape.variantIndex)
    && (if k == c.readiness then s.grantIndex.Present? ==> s.grantIndex.definition == Expected(Grant)
        else s.grantIndex == Absent)
    && (if k == c.shift then s.shiftIndex.Present? ==> s.shiftIndex.definition == Expected(Shift)
        else s.shiftIndex == shape.shiftIndex)
  }

  /** The journal lists the first migrations of the catalog and the schema is theirs. */
  ghost predicate Consistent(c: Catalog, d: Db) {
    && |d.journal| <= |c.millis|
    && d.journal == c.millis[..|d.journal|]
    && SchemaOk(c, |d.journal|, d.schema)
  }

  /** Everything before the concurrent index build of stage t is in place. */
  predicate Prepared(t: Target, s: Schema) {
    t == Variant ==> s.column && s.check == Validated
  }

  predicate Ready(t: Target, s: Schema) {
    Prepared(t, s) && IndexOf(s, t) == Present(true, Expected(t))
  }

  /** What a runner at a query of batch lo..hi-1 knows about the database d. */
  ghost predicate BatchLocal(c: Catalog, d: Db, r: Runner, lo: nat, hi: nat)
    requires r.pc.At?
  {
    match r.pc.point
    case Latest => r.tx == None
    case BatchBegin(latest) => r.tx == None && latest == LatestMillis(d.journal)
    case Run(latest, i) =>
      && latest == LatestMillis(d.journal)
      && lo <= i <= hi
      && r.tx.Some? && Consistent(c, r.tx.value)
      && (if i <= |d.journal| then r.tx.value == d
          else |r.tx.value.journal| == i && r.tx.value.schema == Shape(c, i))
    case _ => false
  }

  /** What a runner at a query of the online stage of migration i knows. */
  ghost predicate OnlineLocal(c: Catalog, d: Db, r: Runner, t: Target, i: nat)
    requires r.pc.At? && i < |c.millis|
  {
    var s := d.schema;
    && (r.pc.point == Latest || |d.journal| == i)
    && match r.pc.point
       case Latest => r.tx == None
       case Guard => r.tx == None && t != Shift
       case Column => r.tx == None && t == Variant
       case AddTheCheck => r.tx == None && t == Variant && s.column
       case Validate => r.tx == None && t == Variant && s.check != NoCheck
       case Inspect => r.tx == None && Prepared(t, s)
       case Drop => r.tx == None && Prepared(t, s) && IndexOf(s, t) == Present(false, Expected(t))
       case Start => r.tx == None && Prepared(t, s) && IndexOf(s, t) == Absent
       case Finish => r.tx == None && Prepared(t, s) && IndexOf(s, t) == Present(false, Expected(t))
       case Begin => r.tx == None && Ready(t, s)
       case Body(j) =>
         && Ready(t, s) && j <= |BodySql(t)|
         && r.tx.Some? && r.tx.value.journal == d.journal
         && ExecAll(c, BodySql(t)[..j], s) == Some(r.tx.value.schema)
       case Journal =>
         && Ready(t, s)
         && r.tx.Some? && r.tx.value.journal == d.journal
         && ExecAll(c, BodySql(t), s) == Some(r.tx.value.schema)
       case Commit =>
         && Ready(t, s)
         && r.tx.Some? && r.tx.value.journal == d.journal + [c.millis[i]]
         && ExecAll(c, BodySql(t), s) == Some(r.tx.value.schema)
       case _ => false
  }

  ghost predicate Local(c: Catalog, d: Db, r: Runner)
    requires Planned(c, r) && r.pc.At?
  {
    && r.pc.stage < |r.stages|
    && r.stages[r.pc.stage].Lo() <= |d.journal|
    && match r.stages[r.pc.stage]
       case Batch(lo, hi) => BatchLocal(c, d, r, lo, hi)
       case Online(t, i) => OnlineLocal(c, d, r, t, i)
  }

  predicate Harmless(o: Outcome) { o == Done || o == Interrupted }

  ghost predicate RunnerOk(c: Catalog, s: System, id: int)
    requires c.Placed() && id in s.runners
  {
    var r := s.runners[id];
    && Planned(c, r)
    && match r.pc
       case Waiting => s.lock != Some(id) && r.tx.None?
       case At(_, _) => s.lock == Some(id) && Local(c, s.db, r)
       case Unlocking(o) => Harmless(o) && (o == Done ==> r.len <= |s.db.journal|)
       case Closing(o) => Harmless(o) && (o == Done ==> r.len <= |s.db.journal| && s.lock != Some(id))
       case Finished(o) => s.lock != Some(id) && Harmless(o) && (o == Done ==> r.len <= |s.db.journal|)
       case Killed => s.lock != Some(id)
  }

  ghost predicate Inv(c: Catalog, s: System)
    requires c.Placed()
  {
    && Consistent(c, s.db)
    && (s.lock.Some? ==> s.lock.value in s.runners)
    && forall id :: id in s.runners ==> RunnerOk(c, s, id)
  }

  lemma {:induction false} LatestOfPrefix(c: Catalog, k: nat)
    requires c.Valid() && k <= |c.millis|
    ensures LatestMillis(c.millis[..k]) == if k == 0 then 0 else c.millis[k - 1]
  {
    if k == 0 {
    } else {
      assert c.millis[..k][..k - 1] == c.millis[..k - 1];
      LatestOfPrefix(c, k - 1);
    }
  }

  /** Migration i is newer than the journal exactly when the journal does not hold it. */
  lemma PendingIff(c: Catalog, d: Db, i: nat)
    requires c.Valid() && Consistent(c, d) && i < |c.millis|
    ensures LatestMillis(d.journal) < c.millis[i] <==> |d.journal| <= i
  {
    LatestOfPrefix(c, |d.journal|);
  }

  /** A migration run in a batch at its turn keeps the database consistent. */
  lemma OrdinaryRuns(c: Catalog, d: Db, i: nat)
    requires c.Placed() && Consistent(c, d) && |d.journal| == i < |c.millis| && !c.IsOnline(i)
    ensures ExecAll(c, FileSql(c, i), d.schema) == Some(Shape(c, i + 1))
    ensures Consistent(c, Db(d.journal + [c.millis[i]], Shape(c, i + 1)))
  {
    hide FileSql, ExecAll, SchemaOk, Shape;
    FileKeepsShape(c, i);
    CleanBetweenStages(c, d.schema, i);
    ShapeIsOk(c, i + 1);
    assert c.millis[..i] + [c.millis[i]] == c.millis[..i + 1];
  }

  lemma CleanBetweenStages(c: Catalog, s: Schema, k: nat)
    requires SchemaOk(c, k, s) && !c.IsOnline(k)
    ensures s == Shape(c, k)
  {
  }

  lemma ShapeIsOk(c: Catalog, k: nat)
    ensures SchemaOk(c, k, Shape(c, k))
  {
  }

  lemma {:induction false} ExecAppend(c: Catalog, a: seq<Sql>, q: Sql, s: Schema)
    ensures ExecAll(c, a + [q], s)
         == match ExecAll(c, a, s) case None => None case Some(m) => Exec(c, q, m)
  {
    if a == [] {
      assert ([] + [q])[1..] == [];
    } else {
      assert (a + [q])[1..] == a[1..] + [q];
      match Exec(c, a[0], s)
      case None =>
      case Some(m) => ExecAppend(c, a[1..], q, m);
    }
  }

  /** The final transaction of an online stage gives the canonical schema. */
  lemma BodyRuns(c: Catalog, t: Target, s: Schema)
    requires c.Placed() && SchemaOk(c, c.At(t), s) && Ready(t, s)
    ensures ExecAll(c, BodySql(t), s) == Some(Shape(c, c.At(t) + 1))
  {
    var qs := BodySql(t);
    match t
    case Variant =>
      ExecCons(c, qs, s, s.(variantUnique := true));
      ExecCons(c, qs[1..], s.(variantUnique := true), s.(variantUnique := true, oldUnique := false));
    case Grant =>
      assert [] + [0] == [0];
      var s1 := s.(readiness := [0]);
      var s2 := s1.(grantUnique := true, grantIndex := Absent);
      ExecCons(c, qs, s, s1);
      ExecCons(c, qs[1..], s1, s2);
      ReadinessTail(c, s2, 0);
      assert qs[1..][1..] == LaterSql()[0..];
    case Shift =>
  }

  /** A sequence of statements that succeeds also succeeds up to any statement in it. */
  lemma {:induction false} ExecPrefix(c: Catalog, qs: seq<Sql>, j: nat, s: Schema)
    requires j < |qs| && ExecAll(c, qs, s).Some?
    ensures ExecAll(c, qs[..j], s).Some?
    ensures Exec(c, qs[j], ExecAll(c, qs[..j], s).value) == ExecAll(c, qs[..j + 1], s)
    ensures ExecAll(c, qs[..j + 1], s).Some?
  {
    assert qs[..j + 1] == qs[..j] + [qs[j]];
    ExecAppend(c, qs[..j], qs[j], s);
    if j + 1 == |qs| {
      assert qs[..j + 1] == qs;
    } else {
      ExecShorter(c, qs, j + 1, s);
    }
  }

  lemma {:induction false} ExecShorter(c: Catalog, qs: seq<Sql>, j: nat, s: Schema)
    requires j <= |qs| && ExecAll(c, qs, s).Some?
    ensures ExecAll(c, qs[..j], s).Some?
    decreases |qs| - j
  {
    if j == |qs| {
      assert qs[..j] == qs;
    } else {
      ExecShorter(c, qs, j + 1, s);
      assert qs[..j + 1] == qs[..j] + [qs[j]];
      ExecAppend(c, qs[..j], qs[j], s);
    }
  }

  /** A run touches nothing once its package is journaled, and what it journals is complete. */
  ghost predicate Progress(c: Catalog, len: nat, d: Db, d': Db) {
    && (len <= |d.journal| ==> d' == d)
    && (|d.journal| < |d'.journal| ==> |d'.journal| <= len && d'.schema == Shape(c, |d'.journal|))
  }

  /** What one successful query guarantees. */
  ghost predicate StepOk(c: Catalog, d: Db, r: Runner, d': Db, r': Runner)
    requires Planned(c, r)
  {
    && r'.len == r.len && r'.stages == r.stages && Planned(c, r')
    && Consistent(c, d') && d.journal <= d'.journal
    && Progress(c, r.len, d, d')
    && (d.schema.oldUnique && !d'.schema.oldUnique ==>
          d'.schema.variantUnique && |d.journal| == c.offer && d'.journal == d.journal + [c.millis[c.offer]])
    && (match r'.pc
        case At(_, _) => Local(c, d', r')
        case Unlocking(o) => o == Done && r.len <= |d'.journal|
        case _ => false)
  }

  lemma AdvanceOk(c: Catalog, d: Db, d': Db, r: Runner)
    requires c.Placed() && Planned(c, r) && r.pc.At? && Consistent(c, d') && d.journal <= d'.journal
    requires Progress(c, r.len, d, d')
    requires r.pc.stage < |r.stages| && r.stages[r.pc.stage].Hi() <= |d'.journal|
    requires d.schema.oldUnique && !d'.schema.oldUnique ==>
        d'.schema.variantUnique && |d.journal| == c.offer && d'.journal == d.journal + [c.millis[c.offer]]
    ensures StepOk(c, d, r, d', Advance(r))
  {
    hide SchemaOk;
  }

  /** A query that leaves the committed database alone. */
  lemma StayOk(c: Catalog, d: Db, r: Runner, p: Point, tx: Option<Db>)
    requires c.Placed() && Planned(c, r) && r.pc.At? && Consistent(c, d)
    requires Planned(c, Goto(r.(tx := tx), p)) ==> Local(c, d, Goto(r.(tx := tx), p))
    ensures StepOk(c, d, r, d, Goto(r.(tx := tx), p))
  {
    hide SchemaOk, BatchLocal, OnlineLocal, Consistent;
  }

  /** What the query that runs migration i of a batch gives. */
  lemma BatchRunQuery(c: Catalog, d: Db, r: Runner, lo: nat, hi: nat, i: nat)
    requires c.Valid() && Planned(c, r) && r.pc.At? && Consistent(c, d) && Local(c, d, r)
    requires r.stages[r.pc.stage] == Batch(lo, hi) && r.pc.point == Run(LatestMillis(d.journal), i)
    requires |d.journal| <= i < hi
    ensures r.pc.stage < |r.stages| && r.tx.Some? && i < |c.millis|
    ensures Consistent(c, Db(r.tx.value.journal + [c.millis[i]], Shape(c, i + 1)))
    ensures |r.tx.value.journal| == i
    ensures Next(c, d, r) ==
      (d, Goto(r.(tx := Some(Db(r.tx.value.journal + [c.millis[i]], Shape(c, i + 1)))),
               Run(LatestMillis(d.journal), i + 1)))
  {
    hide SchemaOk, Shape, Exec, ExecAll, FileSql, OnlineLocal, Consistent;
    PendingIff(c, d, i);
    assert Fits(c, r.stages[r.pc.stage]);
    assert c.At(Variant) != i && c.At(Grant) != i && c.At(Shift) != i;
    OrdinaryRuns(c, r.tx.value, i);
  }

  /** A migration that the batch still has to run. */
  lemma BatchRunOk(c: Catalog, d: Db, r: Runner, lo: nat, hi: nat, i: nat)
    requires c.Valid() && Planned(c, r) && r.pc.At? && Consistent(c, d) && Local(c, d, r)
    requires r.stages[r.pc.stage] == Batch(lo, hi) && r.pc.point == Run(LatestMillis(d.journal), i)
    requires |d.journal| <= i < hi
    ensures StepOk(c, d, r, Next(c, d, r).0, Next(c, d, r).1)
  {
    hide SchemaOk, Shape, Exec, ExecAll, FileSql, OnlineLocal, StepOk, Next, Consistent;
    BatchRunQuery(c, d, r, lo, hi, i);
    StayOk(c, d, r, Run(LatestMillis(d.journal), i + 1), Some(Db(r.tx.value.journal + [c.millis[i]], Shape(c, i + 1))));
  }

  lemma BatchStepOk(c: Catalog, d: Db, r: Runner, lo: nat, hi: nat)
    requires c.Valid() && Planned(c, r) && r.pc.At? && Consistent(c, d) && Local(c, d, r)
    requires r.stages[r.pc.stage] == Batch(lo, hi)
    ensures StepOk(c, d, r, Next(c, d, r).0, Next(c, d, r).1)
  {
    hide SchemaOk, Exec, ExecAll, OnlineLocal, StepOk;
    match r.pc.point
    case Latest => StayOk(c, d, r, BatchBegin(LatestMillis(d.journal)), None);
    case BatchBegin(latest) => StayOk(c, d, r, Run(latest, lo), Some(d));
    case Run(latest, i) =>
      hide Next;
      if i >= hi {
        BatchCommitOk(c, d, r, lo, hi);
      } else if |d.journal| <= i {
        BatchRunOk(c, d, r, lo, hi, i);
      } else {
        BatchSkipOk(c, d, r, lo, hi, i);
      }
  }

  /** A migration that the journal already holds. */
  lemma BatchSkipOk(c: Catalog, d: Db, r: Runner, lo: nat, hi: nat, i: nat)
    requires c.Valid() && Planned(c, r) && r.pc.At? && Consistent(c, d) && Local(c, d, r)
    requires r.stages[r.pc.stage] == Batch(lo, hi) && r.pc.point == Run(LatestMillis(d.journal), i)
    requires i < hi && i < |d.journal|
    ensures StepOk(c, d, r, Next(c, d, r).0, Next(c, d, r).1)
  {
    hide SchemaOk, Exec, ExecAll, OnlineLocal, StepOk;
    PendingIff(c, d, i);
    StayOk(c, d, r, Run(LatestMillis(d.journal), i + 1), r.tx);
  }

  lemma JournalGrows(c: Catalog, d: Db, d': Db)
    requires Consistent(c, d) && Consistent(c, d') && |d.journal| <= |d'.journal|
    ensures d.journal <= d'.journal
  {
  }

  lemma OldUniqueness(c: Catalog, d: Db)
    requires Consistent(c, d)
    ensures d.schema.oldUnique == (c.offerTable < |d.journal| <= c.offer)
  {
  }

  lemma BatchCommitOk(c: Catalog, d: Db, r: Runner, lo: nat, hi: nat)
    requires c.Placed() && Planned(c, r) && r.pc.At? && Consistent(c, d) && Local(c, d, r)
    requires r.stages[r.pc.stage] == Batch(lo, hi) && r.pc.point == Run(LatestMillis(d.journal), hi)
    ensures StepOk(c, d, r, Next(c, d, r).0, Next(c, d, r).1)
  {
    hide Exec, ExecAll, OnlineLocal, StepOk, Advance, SchemaOk;
    JournalGrows(c, d, r.tx.value);
    assert !(lo <= c.At(Variant) < hi);
    OldUniqueness(c, d);
    OldUniqueness(c, r.tx.value);
    AdvanceOk(c, d, r.tx.value, r);
  }

  /** A statement outside a transaction touches only what the pending stage owns. */
  lemma AutoOk(c: Catalog, d: Db, r: Runner, t: Target, i: nat, q: Sql, p: Point, s: Schema)
    requires c.Placed() && Planned(c, r) && r.pc.At? && Consistent(c, d) && Local(c, d, r)
    requires r.stages[r.pc.stage] == Online(t, i) && |d.journal| == i && p != Latest
    requires Next(c, d, r) == Auto(c, d, r, q, p)
    requires Exec(c, q, d.schema) == Some(s) && SchemaOk(c, i, s) && s.oldUnique == d.schema.oldUnique
    requires OnlineLocal(c, Db(d.journal, s), Goto(r, p), t, i)
    ensures StepOk(c, d, r, Next(c, d, r).0, Next(c, d, r).1)
  {
    hide SchemaOk, Exec, OnlineLocal, BatchLocal, Next;
  }

  lemma ColumnRuns(c: Catalog, s: Schema)
    requires c.Placed() && SchemaOk(c, c.offer, s)
    ensures Exec(c, AddColumnIfMissing, s) == Some(s.(column := true))
    ensures SchemaOk(c, c.offer, s.(column := true))
    ensures var checked := s.(check := if s.check == NoCheck then NotValid else s.check);
      s.column ==> Exec(c, AddCheckIfMissing, s) == Some(checked) && SchemaOk(c, c.offer, checked)
    ensures var validated := s.(check := Validated);
      s.check != NoCheck ==> Exec(c, ValidateCheck, s) == Some(validated) && SchemaOk(c, c.offer, validated)
  {
  }

  lemma DropRuns(c: Catalog, t: Target, s: Schema)
    requires c.Placed() && SchemaOk(c, c.At(t), s) && IndexOf(s, t) == Present(false, Expected(t))
    ensures Exec(c, DropIndex(t), s) == Some(WithIndex(s, t, Absent)) && SchemaOk(c, c.At(t), WithIndex(s, t, Absent))
  {
  }

  lemma StartRuns(c: Catalog, t: Target, s: Schema)
    requires c.Placed() && SchemaOk(c, c.At(t), s) && Prepared(t, s) && IndexOf(s, t) == Absent
    ensures var next := WithIndex(s, t, Present(false, Expected(t)));
      Exec(c, StartIndex(t, Built(t)), s) == Some(next) && SchemaOk(c, c.At(t), next)
  {
  }

  lemma FinishRuns(c: Catalog, t: Target, s: Schema)
    requires c.Placed() && SchemaOk(c, c.At(t), s) && Prepared(t, s) && IndexOf(s, t) == Present(false, Expected(t))
    ensures var next := WithIndex(s, t, Present(true, Expected(t)));
      Exec(c, FinishIndex(t), s) == Some(next) && SchemaOk(c, c.At(t), next)
  {
  }

  lemma IndexWritten(s: Schema, t: Target, x: Index)
    ensures IndexOf(WithIndex(s, t, x), t) == x
    ensures Prepared(t, WithIndex(s, t, x)) == Prepared(t, s) && WithIndex(s, t, x).oldUnique == s.oldUnique
  {
  }

  lemma ColumnStepOk(c: Catalog, d: Db, r: Runner, i: nat)
    requires c.Placed() && Planned(c, r) && r.pc.At? && Consistent(c, d) && Local(c, d, r)
    requires r.stages[r.pc.stage] == Online(Variant, i)
    requires r.pc.point in {Column, AddTheCheck, Validate}
    ensures StepOk(c, d, r, Next(c, d, r).0, Next(c, d, r).1)
  {
    hide SchemaOk, Exec, BatchLocal, StepOk;
    assert Fits(c, r.stages[r.pc.stage]);
    var s := d.schema;
    ColumnRuns(c, s);
    match r.pc.point
    case Column =>
      AutoOk(c, d, r, Variant, i, AddColumnIfMissing, AddTheCheck, s.(column := true));
    case AddTheCheck =>
      AutoOk(c, d, r, Variant, i, AddCheckIfMissing, Validate,
             s.(check := if s.check == NoCheck then NotValid else s.check));
    case Validate =>
      AutoOk(c, d, r, Variant, i, ValidateCheck, Inspect, s.(check := Validated));
  }

  lemma IndexStepOk(c: Catalog, d: Db, r: Runner, t: Target, i: nat)
    requires c.Placed() && Planned(c, r) && r.pc.At? && Consistent(c, d) && Local(c, d, r)
    requires r.stages[r.pc.stage] == Online(t, i) && r.pc.point in {Drop, Start, Finish}
    ensures StepOk(c, d, r, Next(c, d, r).0, Next(c, d, r).1)
  {
    hide SchemaOk, Exec, BatchLocal, StepOk, Prepared, IndexOf, WithIndex;
    assert Fits(c, r.stages[r.pc.stage]);
    var s := d.schema;
    IndexWritten(s, t, Absent);
    IndexWritten(s, t, Present(false, Expected(t)));
    IndexWritten(s, t, Present(true, Expected(t)));
    match r.pc.point
    case Drop =>
      DropRuns(c, t, s);
      AutoOk(c, d, r, t, i, DropIndex(t), Start, WithIndex(s, t, Absent));
    case Start =>
      StartRuns(c, t, s);
      AutoOk(c, d, r, t, i, StartIndex(t, Built(t)), Finish, WithIndex(s, t, Present(false, Expected(t))));
    case Finish =>
      FinishRuns(c, t, s);
      AutoOk(c, d, r, t, i, FinishIndex(t), Begin, WithIndex(s, t, Present(true, Expected(t))));
  }

  /** What the guards and the index inspection find while stage t is pending. */
  lemma GuardsPass(c: Catalog, t: Target, s: Schema)
    requires c.Placed() && SchemaOk(c, c.At(t), s)
    ensures t == Variant ==> c.offerTable in s.ordinary && s.oldUnique
    ensures t == Grant ==> c.grantTable in s.ordinary && !s.grantUnique
    ensures IndexOf(s, t).Present? ==> IndexOf(s, t).definition == Expected(t)
  {
  }

  lemma GuardStepOk(c: Catalog, d: Db, r: Runner, t: Target, i: nat)
    requires c.Placed() && Planned(c, r) && r.pc.At? && Consistent(c, d) && Local(c, d, r)
    requires r.stages[r.pc.stage] == Online(t, i) && r.pc.point == Guard
    ensures StepOk(c, d, r, Next(c, d, r).0, Next(c, d, r).1)
  {
    hide SchemaOk, BatchLocal, StepOk;
    assert Fits(c, r.stages[r.pc.stage]);
    GuardsPass(c, t, d.schema);
    var p := if t == Variant then Column else Inspect;
    StayOk(c, d, r, p, None);
  }

  lemma InspectStepOk(c: Catalog, d: Db, r: Runner, t: Target, i: nat)
    requires c.Placed() && Planned(c, r) && r.pc.At? && Consistent(c, d) && Local(c, d, r)
    requires r.stages[r.pc.stage] == Online(t, i) && r.pc.point == Inspect
    ensures StepOk(c, d, r, Next(c, d, r).0, Next(c, d, r).1)
  {
    hide SchemaOk, BatchLocal, StepOk;
    assert Fits(c, r.stages[r.pc.stage]);
    GuardsPass(c, t, d.schema);
    var x := IndexOf(d.schema, t);
    StayOk(c, d, r, if x.Absent? then Start else if x.valid then Begin else Drop, None);
  }

  lemma BeginStepOk(c: Catalog, d: Db, r: Runner, t: Target, i: nat)
    requires c.Placed() && Planned(c, r) && r.pc.At? && Consistent(c, d) && Local(c, d, r)
    requires r.stages[r.pc.stage] == Online(t, i) && r.pc.point == Begin
    ensures StepOk(c, d, r, Next(c, d, r).0, Next(c, d, r).1)
  {
    hide SchemaOk, BatchLocal, StepOk, BodySql, ExecAll, Exec, Ready;
    assert BodySql(t)[..0] == [];
    NothingRuns(c, d.schema);
    StayOk(c, d, r, Body(0), Some(d));
  }

  lemma NothingRuns(c: Catalog, s: Schema)
    ensures ExecAll(c, [], s) == Some(s)
  {
  }

  /** The next statement of the transaction of an online stage runs. */
  lemma BodyFacts(c: Catalog, d: Db, r: Runner, t: Target, i: nat, j: nat)
    requires c.Placed() && Planned(c, r) && r.pc.At? && Consistent(c, d) && Local(c, d, r)
    requires r.stages[r.pc.stage] == Online(t, i) && r.pc.point == Body(j) && j < |BodySql(t)|
    ensures ExecAll(c, BodySql(t)[..j + 1], d.schema).Some?
    ensures var tx := Db(d.journal, ExecAll(c, BodySql(t)[..j + 1], d.schema).value);
      Next(c, d, r) == (d, Goto(r.(tx := Some(tx)), Body(j + 1)))
  {
    hide SchemaOk, Shape, Exec, BatchLocal, BodySql, ExecAll, Ready;
    assert Fits(c, r.stages[r.pc.stage]);
    BodyRuns(c, t, d.schema);
    ExecPrefix(c, BodySql(t), j, d.schema);
    OneStatement(c, BodySql(t)[j], r.tx.value.schema);
    assert r.tx.value.journal + [] == r.tx.value.journal;
  }

  lemma BodyStepOk(c: Catalog, d: Db, r: Runner, t: Target, i: nat, j: nat)
    requires c.Placed() && Planned(c, r) && r.pc.At? && Consistent(c, d) && Local(c, d, r)
    requires r.stages[r.pc.stage] == Online(t, i) && r.pc.point == Body(j)
    ensures StepOk(c, d, r, Next(c, d, r).0, Next(c, d, r).1)
  {
    hide SchemaOk, Exec, BatchLocal, BodySql, ExecAll, Ready, StepOk;
    if j < |BodySql(t)| {
      BodyFacts(c, d, r, t, i, j);
      hide Next;
      StayOk(c, d, r, Body(j + 1), Some(Db(d.journal, ExecAll(c, BodySql(t)[..j + 1], d.schema).value)));
    } else {
      assert BodySql(t)[..j] == BodySql(t);
      StayOk(c, d, r, Journal, r.tx);
    }
  }

  lemma OneStatement(c: Catalog, q: Sql, s: Schema)
    ensures ExecAll(c, [q], s) == Exec(c, q, s)
  {
    ExecAppend(c, [], q, s);
    assert [] + [q] == [q];
  }

  lemma JournalStepOk(c: Catalog, d: Db, r: Runner, t: Target, i: nat)
    requires c.Placed() && Planned(c, r) && r.pc.At? && Consistent(c, d) && Local(c, d, r)
    requires r.stages[r.pc.stage] == Online(t, i) && r.pc.point == Journal
    ensures StepOk(c, d, r, Next(c, d, r).0, Next(c, d, r).1)
  {
    hide SchemaOk, Exec, BatchLocal, BodySql, Ready, StepOk;
    NothingRuns(c, r.tx.value.schema);
    StayOk(c, d, r, Commit, Some(Db(d.journal + [c.millis[i]], r.tx.value.schema)));
  }

  /** What the transaction of an online stage is about to commit. */
  lemma CommitFacts(c: Catalog, d: Db, r: Runner, t: Target, i: nat)
    requires c.Placed() && Planned(c, r) && r.pc.At? && Consistent(c, d) && Local(c, d, r)
    requires r.stages[r.pc.stage] == Online(t, i) && r.pc.point == Commit
    ensures r.pc.stage < |r.stages| && r.tx.Some? && Next(c, d, r) == (r.tx.value, Advance(r))
    ensures r.tx.value == Db(d.journal + [c.millis[i]], Shape(c, i + 1))
    ensures i == |d.journal| == c.At(t) && SchemaOk(c, i, d.schema)
  {
    hide SchemaOk, Shape, Exec, BatchLocal, BodySql, ExecAll, Ready, Advance;
    assert Fits(c, r.stages[r.pc.stage]);
    BodyRuns(c, t, d.schema);
  }

  lemma CommitStepOk(c: Catalog, d: Db, r: Runner, t: Target, i: nat)
    requires c.Placed() && Planned(c, r) && r.pc.At? && Consistent(c, d) && Local(c, d, r)
    requires r.stages[r.pc.stage] == Online(t, i) && r.pc.point == Commit
    ensures StepOk(c, d, r, Next(c, d, r).0, Next(c, d, r).1)
  {
    hide SchemaOk, Shape, Local, StepOk, Advance, Next;
    CommitFacts(c, d, r, t, i);
    ShapeIsOk(c, i + 1);
    assert c.millis[..i] + [c.millis[i]] == c.millis[..i + 1];
    OnlyOfferSwaps(c, t, d.schema);
    AdvanceOk(c, d, r.tx.value, r);
  }

  /** Only the offer stage gives up the old uniqueness, and it adds the new one. */
  lemma OnlyOfferSwaps(c: Catalog, t: Target, s: Schema)
    requires c.Placed() && SchemaOk(c, c.At(t), s)
    ensures s.oldUnique && !Shape(c, c.At(t) + 1).oldUnique ==> t == Variant && Shape(c, c.At(t) + 1).variantUnique
  {
  }

  lemma LatestStepOk(c: Catalog, d: Db, r: Runner, t: Target, i: nat)
    requires c.Valid() && Planned(c, r) && r.pc.At? && Consistent(c, d) && Local(c, d, r)
    requires r.stages[r.pc.stage] == Online(t, i) && r.pc.point == Latest
    ensures StepOk(c, d, r, Next(c, d, r).0, Next(c, d, r).1)
  {
    hide SchemaOk, Exec, BatchLocal, StepOk, Advance;
    assert Fits(c, r.stages[r.pc.stage]);
    PendingIff(c, d, i);
    if |d.journal| > i {
      AdvanceOk(c, d, d, r);
    } else {
      ShiftIsPrepared(d.schema);
      StayOk(c, d, r, if t == Shift then Inspect else Guard, None);
    }
  }

  lemma ShiftIsPrepared(s: Schema)
    ensures Prepared(Shift, s)
  {
  }

  /** A query that the environment lets succeed does succeed, is never refused, and keeps everything. */
  lemma NextOk(c: Catalog, d: Db, r: Runner)
    requires c.Valid() && Planned(c, r) && r.pc.At? && Consistent(c, d) && Local(c, d, r)
    ensures StepOk(c, d, r, Next(c, d, r).0, Next(c, d, r).1)
  {
    hide SchemaOk, Consistent, Exec, ExecAll, BatchLocal, Next, StepOk;
    match r.stages[r.pc.stage]
    case Batch(lo, hi) => BatchStepOk(c, d, r, lo, hi);
    case Online(t, i) =>
      var p := r.pc.point;
      if p == Latest {
        LatestStepOk(c, d, r, t, i);
      } else if p in {Column, AddTheCheck, Validate} {
        ColumnStepOk(c, d, r, i);
      } else if p in {Drop, Start, Finish} {
        IndexStepOk(c, d, r, t, i);
      } else if p.Body? {
        BodyStepOk(c, d, r, t, i, p.j);
      } else if p == Journal {
        JournalStepOk(c, d, r, t, i);
      } else if p == Commit {
        CommitStepOk(c, d, r, t, i);
      } else if p == Guard {
        GuardStepOk(c, d, r, t, i);
      } else if p == Inspect {
        InspectStepOk(c, d, r, t, i);
      } else {
        BeginStepOk(c, d, r, t, i);
      }
  }
}
