/** The billing timezone as an offset function, and the probe search that inverts it. */
module BillingZone {
  import opened Wrappers
  import opened CivilCalendar

  /** Offset of local time from UTC, in milliseconds, at each instant. */
  type Zone = int -> int

  const SIX_HOURS: int := 6 * MS_PER_HOUR

  /** Whole seconds, between 0 and 6 hours, and at most one change in any 6-hour window. */
  ghost predicate ZoneOk(z: Zone) {
    && (forall t :: 0 <= z(t) <= SIX_HOURS && z(t) % 1_000 == 0)
    && (forall a, b, c :: a <= b <= c <= a + SIX_HOURS ==> z(a) == z(b) || z(b) == z(c))
  }

  lemma OffsetAt(z: Zone, t: int)
    requires ZoneOk(z)
    ensures 0 <= z(t) <= SIX_HOURS && z(t) % 1_000 == 0
  {
  }

  lemma AtMostOneChange(z: Zone, a: int, b: int, c: int)
    requires ZoneOk(z) && a <= b <= c <= a + SIX_HOURS
    ensures z(a) == z(b) || z(b) == z(c)
  {
  }

  /** What the clock in the zone shows; the milliseconds are those of the instant itself. */
  function LocalDateTime(z: Zone, t: int): DateTime {
    DateTimeOf(t + z(t)).(millisecond := t % 1_000)
  }

  lemma LocalShows(z: Zone, t: int)
    requires ZoneOk(z)
    ensures LocalDateTime(z, t) == DateTimeOf(t + z(t))
    ensures UtcMillis(LocalDateTime(z, t)) == t + z(t)
  {
    hide ZoneOk;
    OffsetAt(z, t);
    var a, b := t / 1_000, z(t) / 1_000;
    QuotientIs(t + z(t), 1_000, a + b, t % 1_000);
  }

  const PROBES: seq<int> := [-48, -24, -6, 0, 6, 24, 48]

  /** The instant of each probe around a local time. */
  function ProbeAt(local: int, k: nat): int
    requires k < |PROBES|
  {
    local + PROBES[k] * MS_PER_HOUR
  }

  /** The instants that the offsets seen at probes k, k+1, ... propose and that do show the target. */
  function Candidates(z: Zone, target: DateTime, k: nat): seq<int>
    requires 1 <= target.month <= 12 && k <= |PROBES|
    decreases |PROBES| - k
  {
    if k == |PROBES| then []
    else
      var local := UtcMillis(target);
      var at := ProbeAt(local, k);
      var offset := UtcMillis(LocalDateTime(z, at)) - at;
      (if LocalDateTime(z, local - offset) == target then [local - offset] else []) + Candidates(z, target, k + 1)
  }

  function Earliest(ts: seq<int>): (t: int)
    requires ts != []
    ensures t in ts && forall u :: u in ts ==> t <= u
  {
    if |ts| == 1 then ts[0]
    else
      assert forall u :: u in ts ==> u == ts[0] || u in ts[1..];
      var rest := Earliest(ts[1..]);
      if ts[0] < rest then ts[0] else rest
  }

  /** The instant a local date and time stands for, or None when the search finds none. */
  function InstantOf(z: Zone, target: DateTime): Option<int>
    requires 1 <= target.month <= 12
  {
    var found := Candidates(z, target, 0);
    if found == [] then None else Some(Earliest(found))
  }

  lemma {:induction false} CandidateShows(z: Zone, target: DateTime, k: nat, t: int)
    requires 1 <= target.month <= 12 && k <= |PROBES| && t in Candidates(z, target, k)
    ensures LocalDateTime(z, t) == target
    decreases |PROBES| - k
  {
    hide LocalDateTime, UtcMillis;
    if k == |PROBES| || t !in Candidates(z, target, k + 1) {
    } else {
      CandidateShows(z, target, k + 1, t);
    }
  }

  /** The offset seen at any probe makes a candidate of the instant it proposes, if that shows the target. */
  lemma {:induction false} ProbeProposes(z: Zone, target: DateTime, k: nat, j: nat, t: int)
    requires ZoneOk(z) && 1 <= target.month <= 12 && k <= j < |PROBES|
    requires t == UtcMillis(target) - z(ProbeAt(UtcMillis(target), j)) && LocalDateTime(z, t) == target
    ensures t in Candidates(z, target, k)
    decreases |PROBES| - k
  {
    hide ZoneOk, LocalDateTime, UtcMillis, Candidates, ProbeAt;
    if k < j {
      ProbeProposes(z, target, k + 1, j, t);
      LaterProposes(z, target, k, t);
    } else {
      LocalShows(z, ProbeAt(UtcMillis(target), k));
      FirstProposes(z, target, k, t);
    }
  }

  lemma LaterProposes(z: Zone, target: DateTime, k: nat, t: int)
    requires 1 <= target.month <= 12 && k < |PROBES| && t in Candidates(z, target, k + 1)
    ensures t in Candidates(z, target, k)
  {
    hide LocalDateTime, UtcMillis, ProbeAt;
  }

  lemma FirstProposes(z: Zone, target: DateTime, k: nat, t: int)
    requires 1 <= target.month <= 12 && k < |PROBES| && LocalDateTime(z, t) == target
    requires UtcMillis(target) - t
             == UtcMillis(LocalDateTime(z, ProbeAt(UtcMillis(target), k))) - ProbeAt(UtcMillis(target), k)
    ensures t in Candidates(z, target, k)
  {
    hide LocalDateTime, UtcMillis, ProbeAt;
  }

  /** Every instant that shows the target is among the candidates: in the 6 hours before the local time the offset
      is the one at either end, and both ends are probed. */
  lemma AllShownAreCandidates(z: Zone, target: DateTime, t: int)
    requires ZoneOk(z) && 1 <= target.month <= 12 && LocalDateTime(z, t) == target
    ensures t in Candidates(z, target, 0)
  {
    hide ZoneOk, LocalDateTime, UtcMillis, Candidates;
    var local := UtcMillis(target);
    LocalShows(z, t);
    OffsetAt(z, t);
    assert ProbeAt(local, 2) == local - SIX_HOURS && ProbeAt(local, 3) == local;
    AtMostOneChange(z, local - SIX_HOURS, t, local);
    ProbeProposes(z, target, 0, if z(t) == z(local) then 3 else 2, t);
  }

  /** The earliest instant at which the clock shows the target. */
  ghost predicate FirstShows(z: Zone, target: DateTime, t: int) {
    LocalDateTime(z, t) == target && forall u :: u < t ==> LocalDateTime(z, u) != target
  }

  /** The search returns the earliest instant that shows the target, in overlaps too, and fails exactly when no
      instant shows it: in gaps, and for dates that are not in the calendar. */
  lemma SearchIsExact(z: Zone, target: DateTime)
    requires ZoneOk(z) && 1 <= target.month <= 12
    ensures match InstantOf(z, target)
            case Some(t) => FirstShows(z, target, t)
            case None => forall t :: LocalDateTime(z, t) != target
  {
    hide ZoneOk, LocalDateTime, UtcMillis, Candidates;
    var found := Candidates(z, target, 0);
    forall t ensures t in found <==> LocalDateTime(z, t) == target {
      if t in found {
        CandidateShows(z, target, 0, t);
      }
      if LocalDateTime(z, t) == target {
        AllShownAreCandidates(z, target, t);
      }
    }
  }

  /** A resolved local time lies less than six hours after its instant. */
  lemma InstantNearLocal(z: Zone, target: DateTime)
    requires ZoneOk(z) && 1 <= target.month <= 12 && InstantOf(z, target).Some?
    ensures var t := InstantOf(z, target).value;
      t + z(t) == UtcMillis(target) && t <= UtcMillis(target) <= t + SIX_HOURS
  {
    hide ZoneOk, LocalDateTime, UtcMillis, InstantOf;
    SearchIsExact(z, target);
    LocalShows(z, InstantOf(z, target).value);
    OffsetAt(z, InstantOf(z, target).value);
  }

  /** When the clock goes back at t, what it shows at t it had shown before. */
  lemma ShownBefore(z: Zone, target: DateTime, t: int) returns (u: int)
    requires ZoneOk(z) && ValidDateTime(target) && LocalDateTime(z, t) == target && z(t) < z(t - 1)
    ensures u < t && LocalDateTime(z, u) == target
  {
    hide ZoneOk, LocalDateTime, UtcMillis, DateTimeOf;
    LocalShows(z, t);
    OffsetAt(z, t);
    OffsetAt(z, t - 1);
    u := UtcMillis(target) - z(t - 1);
    AtMostOneChange(z, u, t - 1, t);
    AtMostOneChange(z, t - SIX_HOURS, u, t - 1);
    LocalShows(z, u);
    DateTimeRoundTrip(target);
  }

  /** Just before the first instant of a local time the clock shows less, by no more than a skipped stretch. */
  lemma JustBefore(z: Zone, target: DateTime, t: int)
    requires ZoneOk(z) && ValidDateTime(target) && FirstShows(z, target, t)
    ensures UtcMillis(target) - 1 - SIX_HOURS <= t - 1 + z(t - 1) <= UtcMillis(target) - 1
  {
    hide ZoneOk, LocalDateTime, UtcMillis;
    LocalShows(z, t);
    OffsetAt(z, t);
    OffsetAt(z, t - 1);
    if z(t - 1) > z(t) {
      var u := ShownBefore(z, target, t);
    }
  }

  /** A zone whose clock is moved once, at instant `at`. */
  ghost function OneChange(at: int, before: int, after: int): Zone {
    t => if t < at then before else after
  }

  predicate Offset(o: int) { 0 <= o <= SIX_HOURS && o % 1_000 == 0 }

  lemma OneChangeIsZone(at: int, before: int, after: int)
    requires Offset(before) && Offset(after)
    ensures ZoneOk(OneChange(at, before, after))
  {
  }

  lemma ShowsIff(z: Zone, target: DateTime, t: int)
    requires ZoneOk(z) && ValidDateTime(target)
    ensures LocalDateTime(z, t) == target <==> t + z(t) == UtcMillis(target)
  {
    hide ZoneOk, UtcMillis, DateTimeOf, LocalDateTime, ValidDateTime;
    LocalShows(z, t);
    DateTimeRoundTrip(target);
  }

  /** Where the clock is moved forward, the skipped local times resolve to nothing; where it is moved back, the repeated
      ones resolve to the first of their two instants. */
  lemma GapAndOverlap(at: int, before: int, after: int, target: DateTime)
    requires Offset(before) && Offset(after) && ValidDateTime(target)
    ensures at + before <= UtcMillis(target) < at + after ==> InstantOf(OneChange(at, before, after), target) == None
    ensures at + after <= UtcMillis(target) < at + before ==>
      InstantOf(OneChange(at, before, after), target) == Some(UtcMillis(target) - before)
  {
    hide ZoneOk, UtcMillis, LocalDateTime, InstantOf, Offset;
    var z := OneChange(at, before, after);
    OneChangeIsZone(at, before, after);
    SearchIsExact(z, target);
    ShowsIff(z, target, UtcMillis(target) - before);
    if InstantOf(z, target).Some? {
      ShowsIff(z, target, InstantOf(z, target).value);
    }
  }
}
