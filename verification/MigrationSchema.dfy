/** The part of the database that the runtime migrations touch, and what each SQL statement does to it.

    Ordinary migrations are opaque: running one appends its number to `ordinary`, and running it twice is an
    error. The three migrations that have an online form are modelled statement by statement. */
module MigrationSchema {
  import opened Wrappers

  /** The columns that the concurrently built indices cover. */
  datatype Column =
    | OfferId | OfferRevision | OfferFormat | PrintVariant
    | TenantId | ConfigurationId
    | ShiftId | TerminalId

  /** What pg_get_indexdef tells of an index. */
  datatype Definition = Definition(unique: bool, columns: seq<Column>)

  datatype Index = Absent | Present(valid: bool, definition: Definition)

  datatype Check = NoCheck | NotValid | Validated

  /** The three indices that are built concurrently. */
  datatype Target = Variant | Grant | Shift

  /** `grantIndex` is the index under its prepared name; attaching it as a constraint renames it. */
  datatype Schema = Schema(
    ordinary: seq<nat>,
    oldUnique: bool,
    column: bool,
    check: Check,
    variantIndex: Index,
    variantUnique: bool,
    grantIndex: Index,
    grantUnique: bool,
    readiness: seq<nat>,
    shiftIndex: Index)

  const EMPTY := Schema([], false, false, NoCheck, Absent, false, Absent, false, [], Absent)

  /** The newest packaged migration list. `millis[i]` is the folderMillis of migration i; the other fields are
      the positions of the migrations that the runner treats specially and of those that create the tables they
      need. An older package is a prefix of this list. */
  datatype Catalog = Catalog(
    millis: seq<int>,
    offer: nat,
    validation: nat,
    readiness: nat,
    replacement: nat,
    shift: nat,
    offerTable: nat,
    grantTable: nat,
    registryTable: nat)
  {
    ghost predicate Valid() {
      && Placed()
      && (forall i :: 0 <= i < |millis| ==> 0 < millis[i])
      && (forall i, j :: 0 <= i < j < |millis| ==> millis[i] < millis[j])
    }

    predicate Placed() {
      && offerTable < offer < validation < readiness < replacement < shift < |millis|
      && grantTable < readiness && grantTable != offer
      && registryTable < shift && registryTable != offer && registryTable != readiness
    }

    function At(t: Target): nat {
      match t case Variant => offer case Grant => readiness case Shift => shift
    }

    predicate IsOnline(i: nat) {
      i == offer || i == readiness || i == shift
    }
  }

  /** One SQL statement. The `IfMissing` forms and the split index build belong to the online stages, the plain
      forms to the migration files. */
  datatype Sql =
    | Ordinary(i: nat)
    | AddColumnIfMissing
    | AddCheckIfMissing
    | ValidateCheck
    | AttachVariant
    | DropOld
    | AddColumn
    | AddVariant(columns: seq<Column>)
    | AddCheck
    | StartIndex(t: Target, definition: Definition)
    | FinishIndex(t: Target)
    | DropIndex(t: Target)
    | CreateIndex(t: Target, definition: Definition)
    | AttachGrant
    | Readiness(j: nat)

  function IndexOf(s: Schema, t: Target): Index {
    match t case Variant => s.variantIndex case Grant => s.grantIndex case Shift => s.shiftIndex
  }

  function WithIndex(s: Schema, t: Target, x: Index): Schema {
    match t
    case Variant => s.(variantIndex := x)
    case Grant => s.(grantIndex := x)
    case Shift => s.(shiftIndex := x)
  }

  predicate Indexable(c: Catalog, s: Schema, t: Target) {
    match t
    case Variant => c.offerTable in s.ordinary && s.column
    case Grant => c.grantTable in s.ordinary
    case Shift => c.registryTable in s.ordinary
  }

  /** The schema after a statement, or None when PostgreSQL raises an error. Statement j of the readiness
      migration needs the table of statement 0, and statement 6 references the attached constraint. */
  function Exec(c: Catalog, q: Sql, s: Schema): Option<Schema> {
    match q
    case Ordinary(i) =>
      if i in s.ordinary then None
      else Some(s.(ordinary := s.ordinary + [i], oldUnique := s.oldUnique || i == c.offerTable))
    case AddColumnIfMissing =>
      if c.offerTable in s.ordinary then Some(s.(column := true)) else None
    case AddCheckIfMissing =>
      if c.offerTable !in s.ordinary then None
      else if s.check != NoCheck then Some(s)
      else if s.column then Some(s.(check := NotValid)) else None
    case ValidateCheck =>
      if s.check == NoCheck then None else Some(s.(check := Validated))
    case AttachVariant =>
      if s.variantIndex.Present? && s.variantIndex.valid && s.variantIndex.definition.unique && !s.variantUnique
      then Some(s.(variantUnique := true)) else None
    case DropOld =>
      if s.oldUnique then Some(s.(oldUnique := false)) else None
    case AddColumn =>
      if c.offerTable in s.ordinary && !s.column then Some(s.(column := true)) else None
    case AddVariant(columns) =>
      if s.column && s.variantIndex.Absent?
      then Some(s.(variantIndex := Present(true, Definition(true, columns)), variantUnique := true)) else None
    case AddCheck =>
      if s.column && s.check == NoCheck then Some(s.(check := Validated)) else None
    case StartIndex(t, definition) =>
      if Indexable(c, s, t) && IndexOf(s, t).Absent? then Some(WithIndex(s, t, Present(false, definition))) else None
    case FinishIndex(t) =>
      if IndexOf(s, t).Present? && !IndexOf(s, t).valid
      then Some(WithIndex(s, t, Present(true, IndexOf(s, t).definition))) else None
    case DropIndex(t) =>
      if IndexOf(s, t).Present? && !(t == Variant && s.variantUnique)
      then Some(WithIndex(s, t, Absent)) else None
    case CreateIndex(t, definition) =>
      if Indexable(c, s, t) && IndexOf(s, t).Absent? then Some(WithIndex(s, t, Present(true, definition))) else None
    case AttachGrant =>
      if s.grantIndex.Present? && s.grantIndex.valid && s.grantIndex.definition.unique && !s.grantUnique
      then Some(s.(grantUnique := true, grantIndex := Absent)) else None
    case Readiness(j) =>
      if j !in s.readiness && (j != 0 ==> 0 in s.readiness) && (j == 6 ==> s.grantUnique)
      then Some(s.(readiness := s.readiness + [j])) else None
  }

  function ExecAll(c: Catalog, qs: seq<Sql>, s: Schema): Option<Schema> {
    if qs == [] then Some(s)
    else match Exec(c, qs[0], s)
         case None => None
         case Some(next) => ExecAll(c, qs[1..], next)
  }

  /** How many statements the readiness file must have. */
  const READINESS_STATEMENTS: nat := 13

  /** The readiness statements after the index and the constraint: 3 to 12. */
  function LaterParts(): (r: seq<nat>)
    ensures |r| == READINESS_STATEMENTS - 3 && forall k :: 0 <= k < |r| ==> r[k] == k + 3
  {
    seq(READINESS_STATEMENTS - 3, k requires 0 <= k => k + 3)
  }

  function LaterSql(): (r: seq<Sql>)
    ensures |r| == READINESS_STATEMENTS - 3 && forall k :: 0 <= k < |r| ==> r[k] == Readiness(k + 3)
  {
    seq(READINESS_STATEMENTS - 3, k requires 0 <= k => Readiness(k + 3))
  }

  /** The indices as the migration files define them. */
  function Filed(t: Target): Definition {
    match t
    case Variant => Definition(true, [OfferId, OfferRevision, OfferFormat, PrintVariant])
    case Grant => Definition(true, [TenantId, ConfigurationId])
    case Shift => Definition(false, [TenantId, ShiftId, TerminalId])
  }

  /** The statements of migration file i, as drizzle runs them. */
  function FileSql(c: Catalog, i: nat): seq<Sql> {
    if i == c.offer then [DropOld, AddColumn, AddVariant(Filed(Variant).columns), AddCheck]
    else if i == c.readiness then
      [Readiness(0), CreateIndex(Grant, Filed(Grant)), AttachGrant] + LaterSql()
    else if i == c.shift then [CreateIndex(Shift, Filed(Shift))]
    else [Ordinary(i)]
  }

  /** The reference: the first k migration files, run in order on an empty database. */
  function Canonical(c: Catalog, k: nat): Option<Schema> {
    if k == 0 then Some(EMPTY)
    else match Canonical(c, k - 1)
         case None => None
         case Some(s) => ExecAll(c, FileSql(c, k - 1), s)
  }

  /** Ordinary migrations among the first k, in order. */
  function OrdinaryBelow(c: Catalog, k: nat): (r: seq<nat>)
    ensures forall i: nat :: i in r <==> i < k && !c.IsOnline(i)
  {
    if k == 0 then []
    else if c.IsOnline(k - 1) then OrdinaryBelow(c, k - 1)
    else OrdinaryBelow(c, k - 1) + [k - 1]
  }

  /** The readiness statements that leave a trace of their own: all but 1 and 2, the index and the constraint. */
  function AllParts(): seq<nat> { [0] + LaterParts() }

  /** What the canonical schema is, field by field. */
  function Shape(c: Catalog, k: nat): Schema {
    Schema(
      OrdinaryBelow(c, k),
      c.offerTable < k <= c.offer,
      c.offer < k,
      if c.offer < k then Validated else NoCheck,
      if c.offer < k then Present(true, Filed(Variant)) else Absent,
      c.offer < k,
      Absent,
      c.readiness < k,
      if c.readiness < k then AllParts() else [],
      if c.shift < k then Present(true, Filed(Shift)) else Absent)
  }

  lemma ExecCons(c: Catalog, qs: seq<Sql>, s: Schema, next: Schema)
    requires qs != [] && Exec(c, qs[0], s) == Some(next)
    ensures ExecAll(c, qs, s) == ExecAll(c, qs[1..], next)
  {
  }

  lemma ReadinessFileRuns(c: Catalog, s: Schema)
    requires c.grantTable in s.ordinary && s.grantIndex.Absent? && !s.grantUnique && s.readiness == []
    requires c.Placed()
    ensures ExecAll(c, FileSql(c, c.readiness), s) == Some(s.(grantUnique := true, readiness := AllParts()))
  {
    var qs := FileSql(c, c.readiness);
    assert [] + [0] == [0];
    var s1 := s.(readiness := [0]);
    ExecCons(c, qs, s, s1);
    var s2 := s1.(grantIndex := Present(true, Filed(Grant)));
    ExecCons(c, qs[1..], s1, s2);
    var s3 := s1.(grantUnique := true);
    ExecCons(c, qs[1..][1..], s2, s3);
    ReadinessTail(c, s3, 0);
    assert qs[1..][1..][1..] == LaterSql()[0..];
  }

  lemma {:induction false} ReadinessTail(c: Catalog, s: Schema, j: nat)
    requires j <= |LaterSql()| && s.readiness == [0] + LaterParts()[..j] && s.grantUnique
    ensures ExecAll(c, LaterSql()[j..], s) == Some(s.(readiness := AllParts()))
    decreases |LaterSql()| - j
  {
    if j == |LaterSql()| {
      assert LaterParts()[..j] == LaterParts();
    } else {
      assert s.readiness[0] == 0;
      assert LaterParts()[..j + 1] == LaterParts()[..j] + [j + 3];
      var next := s.(readiness := s.readiness + [j + 3]);
      ExecCons(c, LaterSql()[j..], s, next);
      assert LaterSql()[j..][1..] == LaterSql()[j + 1..];
      assert next.readiness == [0] + LaterParts()[..j + 1];
      ReadinessTail(c, next, j + 1);
    }
  }

  lemma OfferFileRuns(c: Catalog, s: Schema)
    requires c.offerTable in s.ordinary && s.oldUnique && !s.column && s.check == NoCheck && s.variantIndex.Absent?
    ensures ExecAll(c, FileSql(c, c.offer), s)
         == Some(s.(oldUnique := false, column := true, check := Validated,
                    variantIndex := Present(true, Filed(Variant)), variantUnique := true))
  {
    var qs := FileSql(c, c.offer);
    var s1 := s.(oldUnique := false);
    var s2 := s1.(column := true);
    var s3 := s2.(variantIndex := Present(true, Filed(Variant)), variantUnique := true);
    ExecCons(c, qs, s, s1);
    ExecCons(c, qs[1..], s1, s2);
    ExecCons(c, qs[1..][1..], s2, s3);
    ExecCons(c, qs[1..][1..][1..], s3, s3.(check := Validated));
  }

  /** The migration files never fail in order, and the closed form describes the schema they build. */
  lemma {:induction false} CanonicalShape(c: Catalog, k: nat)
    requires c.Placed() && k <= |c.millis|
    ensures Canonical(c, k) == Some(Shape(c, k))
  {
    if k == 0 {
    } else {
      CanonicalShape(c, k - 1);
      FileKeepsShape(c, k - 1);
    }
  }

  /** Running file i on the canonical schema of the first i files gives that of the first i + 1. */
  lemma FileKeepsShape(c: Catalog, i: nat)
    requires c.Placed() && i < |c.millis|
    ensures ExecAll(c, FileSql(c, i), Shape(c, i)) == Some(Shape(c, i + 1))
  {
    var s := Shape(c, i);
    if i == c.offer {
      OfferFileRuns(c, s);
    } else if i == c.readiness {
      ReadinessFileRuns(c, s);
    } else if i == c.shift {
      ExecCons(c, [CreateIndex(Shift, Filed(Shift))], s, s.(shiftIndex := Present(true, Filed(Shift))));
    } else {
      ExecCons(c, [Ordinary(i)], s, s.(ordinary := s.ordinary + [i], oldUnique := s.oldUnique || i == c.offerTable));
    }
  }
}
