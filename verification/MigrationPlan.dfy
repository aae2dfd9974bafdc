/** How one run cuts the packaged migrations into transactions and online stages. */
module MigrationPlan {
  import opened MigrationSchema

  /** A batch is one drizzle transaction over migrations lo..hi-1; an online stage handles migration i itself. */
  datatype Stage =
    | Batch(lo: nat, hi: nat)
    | Online(t: Target, i: nat)
  {
    function Lo(): nat { match this case Batch(l, _) => l case Online(_, k) => k }

    function Hi(): nat { match this case Batch(_, h) => h case Online(_, k) => k + 1 }

    predicate Holds(m: int) { Batch? && lo <= m < hi }
  }

  /** Positions of the special migrations, as Array.indexOf reports them: -1 when absent. */
  datatype Positions = Positions(offer: int, validation: int, readiness: int, replacement: int, shift: int) {
    predicate Within(n: nat) {
      && -1 <= offer < n && -1 <= validation < n && -1 <= readiness < n
      && -1 <= replacement < n && -1 <= shift < n
    }
  }

  predicate Rising(a: int, b: int) { 0 <= a && 0 <= b ==> a < b }

  /** The special migrations that a package holds stand in the order in which they were written, and the validations
      have the offer migration before them. */
  predicate InOrder(p: Positions) {
    && (p.offer < 0 ==> p.validation < 0 && p.replacement < 0)
    && Rising(p.offer, p.validation) && Rising(p.offer, p.readiness)
    && Rising(p.offer, p.replacement) && Rising(p.offer, p.shift)
    && Rising(p.validation, p.readiness) && Rising(p.validation, p.replacement) && Rising(p.validation, p.shift)
    && Rising(p.readiness, p.replacement) && Rising(p.readiness, p.shift)
    && Rising(p.replacement, p.shift)
  }

  /** Each stage starts where the one before it ended, from lo to hi. */
  predicate Chained(stages: seq<Stage>, lo: nat, hi: nat) {
    if |stages| == 1 then stages[0].Lo() == lo <= stages[0].Hi() == hi
    else
      && stages != []
      && stages[0].Lo() == lo <= stages[0].Hi()
      && Chained(stages[1..], stages[0].Hi(), hi)
  }

  /** Some stage begins with migration v. */
  predicate Starts(stages: seq<Stage>, v: int) {
    exists s :: s in stages && s.Lo() == v
  }

  lemma Linked(s: Stage, rest: seq<Stage>, lo: nat, hi: nat)
    requires Chained(rest, s.Hi(), hi) && s.Lo() == lo <= s.Hi()
    ensures Chained([s] + rest, lo, hi)
    ensures Starts([s] + rest, lo) && forall v :: Starts(rest, v) ==> Starts([s] + rest, v)
  {
    assert s in [s] + rest;
    forall v | Starts(rest, v) ensures Starts([s] + rest, v) {
      var t :| t in rest && t.Lo() == v;
      assert t in [s] + rest;
    }
    assert ([s] + rest)[1..] == rest;
  }

  /** The stages that remain once `next` is the next migration to handle and only the code registry index is still
      special. */
  function ShiftStages(n: nat, p: Positions, next: nat): (r: seq<Stage>)
    requires p.Within(n) && next <= n
    ensures Chained(r, next, n) && Starts(r, next)
  {
    if p.shift >= next then
      var rest := [Batch(p.shift + 1, n)];
      Linked(Online(Shift, p.shift), rest, p.shift, n);
      Linked(Batch(next, p.shift), [Online(Shift, p.shift)] + rest, next, n);
      [Batch(next, p.shift)] + ([Online(Shift, p.shift)] + rest)
    else
      assert Batch(next, n) in [Batch(next, n)];
      [Batch(next, n)]
  }

  function ReplacementStages(n: nat, p: Positions, next: nat): (r: seq<Stage>)
    requires p.Within(n) && next <= n
    ensures Chained(r, next, n) && (p.replacement >= next ==> Starts(r, p.replacement))
  {
    if p.replacement >= next then
      Linked(Batch(next, p.replacement), ShiftStages(n, p, p.replacement), next, n);
      [Batch(next, p.replacement)] + ShiftStages(n, p, p.replacement)
    else ShiftStages(n, p, next)
  }

  function ReadinessStages(n: nat, p: Positions, next: nat): (r: seq<Stage>)
    requires p.Within(n) && next <= n
    ensures Chained(r, next, n)
    ensures p.replacement > p.readiness >= next || p.replacement >= next > p.readiness ==> Starts(r, p.replacement)
  {
    if p.readiness >= next then
      var rest := ReplacementStages(n, p, p.readiness + 1);
      Linked(Online(Grant, p.readiness), rest, p.readiness, n);
      Linked(Batch(next, p.readiness), [Online(Grant, p.readiness)] + rest, next, n);
      [Batch(next, p.readiness)] + ([Online(Grant, p.readiness)] + rest)
    else ReplacementStages(n, p, next)
  }

  function ValidationStages(n: nat, p: Positions): (r: seq<Stage>)
    requires p.Within(n) && p.offer >= 0
    ensures Chained(r, p.offer + 1, n)
    ensures p.validation > p.offer ==> Starts(r, p.validation)
    ensures InOrder(p) && p.replacement >= 0 ==> Starts(r, p.replacement)
  {
    if p.validation > p.offer then
      var rest := ReadinessStages(n, p, p.validation + 1);
      var check := Batch(p.validation, p.validation + 1);
      Linked(check, rest, p.validation, n);
      Linked(Batch(p.offer + 1, p.validation), [check] + rest, p.offer + 1, n);
      [Batch(p.offer + 1, p.validation)] + ([check] + rest)
    else ReadinessStages(n, p, p.offer + 1)
  }

  /** The stages of a run, in order. */
  function Stages(n: nat, p: Positions): (r: seq<Stage>)
    requires p.Within(n)
    ensures Chained(r, 0, n)
    ensures 0 <= p.offer < p.validation ==> Starts(r, p.validation)
    ensures InOrder(p) && p.replacement >= 0 ==> Starts(r, p.replacement)
  {
    if p.offer < 0 then [Batch(0, n)]
    else
      var rest := ValidationStages(n, p);
      Linked(Online(Variant, p.offer), rest, p.offer, n);
      Linked(Batch(0, p.offer), [Online(Variant, p.offer)] + rest, 0, n);
      [Batch(0, p.offer)] + ([Online(Variant, p.offer)] + rest)
  }

  function Range(lo: nat, hi: nat): (r: seq<nat>)
    requires lo <= hi
    ensures |r| == hi - lo && forall k :: 0 <= k < |r| ==> r[k] == lo + k
  {
    seq(hi - lo, k requires 0 <= k => lo + k)
  }

  /** The migrations the stages handle, in the order in which they handle them. */
  function Covered(stages: seq<Stage>): seq<nat> {
    if stages == [] then []
    else (if stages[0].Lo() <= stages[0].Hi() then Range(stages[0].Lo(), stages[0].Hi()) else []) + Covered(stages[1..])
  }

  lemma RangeSplit(lo: nat, m: nat, hi: nat)
    requires lo <= m <= hi
    ensures Range(lo, m) + Range(m, hi) == Range(lo, hi)
  {
  }

  lemma {:induction false} ChainCovers(stages: seq<Stage>, lo: nat, hi: nat)
    requires Chained(stages, lo, hi)
    ensures lo <= hi && Covered(stages) == Range(lo, hi)
  {
    hide Range;
    if |stages| == 1 {
      assert stages[1..] == [];
      assert Range(lo, hi) + [] == Range(lo, hi);
    } else {
      ChainCovers(stages[1..], stages[0].Hi(), hi);
      RangeSplit(lo, stages[0].Hi(), hi);
    }
  }

  /** Whatever special migrations a package holds and wherever they stand, a run handles every packaged migration
      exactly once and in order. */
  lemma StagesCoverOnce(n: nat, p: Positions)
    requires p.Within(n)
    ensures Covered(Stages(n, p)) == Range(0, n)
  {
    ChainCovers(Stages(n, p), 0, n);
  }

  lemma {:induction false} NoneBefore(stages: seq<Stage>, lo: nat, hi: nat, s: Stage)
    requires Chained(stages, lo, hi) && s in stages
    ensures lo <= s.Lo()
  {
    if |stages| <= 1 || s !in stages[1..] {
    } else {
      NoneBefore(stages[1..], stages[0].Hi(), hi, s);
    }
  }

  /** Where a stage begins, no batch spans the border. */
  lemma {:induction false} BorderApart(stages: seq<Stage>, lo: nat, hi: nat, v: int, s: Stage)
    requires Chained(stages, lo, hi) && Starts(stages, v) && s in stages
    ensures !(s.Holds(v - 1) && s.Holds(v))
  {
    var t :| t in stages && t.Lo() == v;
    if |stages| <= 1 {
    } else {
      var rest := stages[1..];
      if s in rest && t in rest {
        BorderApart(rest, stages[0].Hi(), hi, v, s);
      } else if s in rest {
        NoneBefore(rest, stages[0].Hi(), hi, s);
      } else if t in rest {
        NoneBefore(rest, stages[0].Hi(), hi, t);
      }
    }
  }

  /** No transaction adds a constraint and scans for it: a validation migration never shares a batch with the
      migration before it. */
  lemma ValidationsStandApart(n: nat, p: Positions, s: Stage)
    requires p.Within(n) && InOrder(p) && s in Stages(n, p)
    ensures p.validation >= 0 ==> !(s.Holds(p.validation - 1) && s.Holds(p.validation))
    ensures p.replacement >= 0 ==> !(s.Holds(p.replacement - 1) && s.Holds(p.replacement))
  {
    hide Stages;
    if p.validation >= 0 {
      BorderApart(Stages(n, p), 0, n, p.validation, s);
    }
    if p.replacement >= 0 {
      BorderApart(Stages(n, p), 0, n, p.replacement, s);
    }
  }

  /** Whatever the positions, the first validation has its predecessor in another transaction exactly when the offer
      migration is packaged and stands before it. */
  lemma ValidationApartIff(n: nat, p: Positions)
    requires p.Within(n) && 0 < p.validation && p.validation != p.offer
    ensures (exists s :: s in Stages(n, p) && s.Holds(p.validation - 1) && s.Holds(p.validation))
        <==> !(0 <= p.offer < p.validation)
  {
    if 0 <= p.offer < p.validation {
      hide Stages;
      forall s | s in Stages(n, p) ensures !(s.Holds(p.validation - 1) && s.Holds(p.validation)) {
        BorderApart(Stages(n, p), 0, n, p.validation, s);
      }
    } else {
      var first := Batch(0, if p.offer < 0 then n else p.offer);
      assert Stages(n, p)[0] == first;
      assert first in Stages(n, p);
    }
  }

  /** What the runner of a package holding the first n migrations of the catalog finds. */
  function PackagePositions(c: Catalog, n: nat): Positions {
    var at := (i: nat) => if i < n then i else -1;
    Positions(at(c.offer), at(c.validation), at(c.readiness), at(c.replacement), at(c.shift))
  }

  function PackageStages(c: Catalog, n: nat): seq<Stage> {
    Stages(n, PackagePositions(c, n))
  }

  /** A batch without online migrations, or the online stage of the right one. */
  predicate Fits(c: Catalog, s: Stage) {
    match s
    case Batch(lo, hi) => forall t :: !(lo <= c.At(t) < hi)
    case Online(t, i) => i == c.At(t)
  }

  /** No online migration stands at next..limit-1. */
  predicate Clear(c: Catalog, next: nat, limit: nat) {
    forall t :: !(next <= c.At(t) < limit)
  }

  predicate AllFit(c: Catalog, stages: seq<Stage>) {
    forall s :: s in stages ==> Fits(c, s)
  }

  function Limit(i: nat, n: nat): nat { if i < n then i else n }

  lemma FitsCons(c: Catalog, s: Stage, rest: seq<Stage>)
    requires Fits(c, s) && AllFit(c, rest)
    ensures AllFit(c, [s] + rest)
  {
  }

  lemma ShiftFits(c: Catalog, n: nat, next: nat)
    requires c.Placed() && next <= n && Clear(c, next, Limit(c.shift, n)) && (c.shift < n ==> next <= c.shift)
    ensures AllFit(c, ShiftStages(n, PackagePositions(c, n), next))
  {
  }

  lemma ReplacementFits(c: Catalog, n: nat, next: nat)
    requires c.Placed() && next <= n && Clear(c, next, Limit(c.shift, n))
    requires c.replacement < n ==> next <= c.replacement
    ensures AllFit(c, ReplacementStages(n, PackagePositions(c, n), next))
  {
    hide ShiftStages, Starts, Chained;
    var p := PackagePositions(c, n);
    if c.replacement < n {
      ShiftFits(c, n, c.replacement);
      FitsCons(c, Batch(next, c.replacement), ShiftStages(n, p, c.replacement));
    } else {
      ShiftFits(c, n, next);
    }
  }

  lemma ReadinessFits(c: Catalog, n: nat, next: nat)
    requires c.Placed() && next <= n && Clear(c, next, Limit(c.readiness, n))
    requires c.readiness < n ==> next <= c.readiness
    ensures AllFit(c, ReadinessStages(n, PackagePositions(c, n), next))
  {
    hide ReplacementStages, Starts, Chained;
    var p := PackagePositions(c, n);
    if c.readiness < n {
      var rest := ReplacementStages(n, p, c.readiness + 1);
      ReplacementFits(c, n, c.readiness + 1);
      FitsCons(c, Online(Grant, c.readiness), rest);
      FitsCons(c, Batch(next, c.readiness), [Online(Grant, c.readiness)] + rest);
    } else {
      ReplacementFits(c, n, next);
    }
  }

  /** In a package the online migrations, and only they, are handled by online stages. */
  lemma PackageStagesFit(c: Catalog, n: nat)
    requires c.Placed()
    ensures InOrder(PackagePositions(c, n))
    ensures AllFit(c, PackageStages(c, n))
  {
    hide ValidationStages, Starts, Chained;
    var p := PackagePositions(c, n);
    if c.offer < n {
      var rest := ValidationStages(n, p);
      ValidationFits(c, n);
      FitsCons(c, Online(Variant, c.offer), rest);
      FitsCons(c, Batch(0, c.offer), [Online(Variant, c.offer)] + rest);
    }
  }

  lemma ValidationFits(c: Catalog, n: nat)
    requires c.Placed() && c.offer < n
    ensures AllFit(c, ValidationStages(n, PackagePositions(c, n)))
  {
    hide ReadinessStages, Starts, Chained;
    var p := PackagePositions(c, n);
    if c.validation < n {
      var rest := ReadinessStages(n, p, c.validation + 1);
      var check := Batch(c.validation, c.validation + 1);
      ReadinessFits(c, n, c.validation + 1);
      FitsCons(c, check, rest);
      FitsCons(c, Batch(c.offer + 1, c.validation), [check] + rest);
    } else {
      ReadinessFits(c, n, c.offer + 1);
    }
  }
}
