/** Billing periods: monthly and yearly cycles counted from an anchor, in local time of the billing zone. */
module CommercialTerms {
  import opened Wrappers
  import opened CivilCalendar
  import opened BillingZone

  datatype Billing = Month | Year | Custom

  /** The timezone and the policy version are constants of the source and are not repeated here. */
  datatype Period = Period(billing: Billing, anchorAt: int, cycle: int, startsAt: int, endsAt: int)

  datatype TermError =
    | UnsupportedBilling
    | BadCycle
    | BadInstant
    | OutOfRange
    | NoSuchLocalTime
    | BadDate
    | EndsBeforeStart
    | NotMidnight

  const MAX_SAFE: int := 9_007_199_254_740_991
  const MAX_YEAR: int := 9_999

  predicate Safe(n: int) { -MAX_SAFE <= n <= MAX_SAFE }

  /** The range check that ends the parsing of an instant: its UTC year is 1 to 9999. */
  function CheckedInstant(t: int): Result<int, TermError> {
    if 1 <= DateTimeOf(t).year <= MAX_YEAR then Ok(t) else Err(BadInstant)
  }

  function Resolved(z: Zone, target: DateTime): Result<int, TermError>
    requires 1 <= target.month <= 12
  {
    match InstantOf(z, target) case None => Err(NoSuchLocalTime) case Some(t) => Ok(t)
  }

  /** The year and month of boundary `cycle`, before the range check. */
  function BoundaryMonth(anchor: DateTime, billing: Billing, cycle: int): (int, int) {
    if billing == Month
    then ((anchor.year * 12 + anchor.month - 1 + cycle) / 12, (anchor.year * 12 + anchor.month - 1 + cycle) % 12 + 1)
    else (anchor.year + cycle, anchor.month)
  }

  /** The local date and time of boundary `cycle`: the anchor's, moved by whole months or years, its day cut to the
      length of the month. */
  function BoundaryTarget(anchor: DateTime, billing: Billing, cycle: int): DateTime {
    var (year, month) := BoundaryMonth(anchor, billing, cycle);
    anchor.(year := year, month := month,
            day := if anchor.day <= DaysInMonth(year, month) then anchor.day else DaysInMonth(year, month))
  }

  function Boundary(z: Zone, anchor: DateTime, billing: Billing, cycle: int): Result<int, TermError>
    requires 1 <= anchor.month <= 12
  {
    var (year, _) := BoundaryMonth(anchor, billing, cycle);
    if billing == Month && !Safe(anchor.year * 12 + anchor.month - 1 + cycle) then Err(OutOfRange)
    else if !Safe(year) || year < 1 || year > MAX_YEAR then Err(OutOfRange)
    else Resolved(z, BoundaryTarget(anchor, billing, cycle))
  }

  function ResolvePeriod(z: Zone, anchorAt: int, billing: Billing, cycle: int): Result<Period, TermError> {
    if billing == Custom then Err(UnsupportedBilling)
    else if !Safe(cycle) || cycle < 0 || cycle == MAX_SAFE then Err(BadCycle)
    else
      match CheckedInstant(anchorAt)
      case Err(e) => Err(e)
      case Ok(_) =>
        var original := LocalDateTime(z, anchorAt);
        var start := if cycle == 0 then Ok(anchorAt) else Boundary(z, original, billing, cycle);
        match start
        case Err(e) => Err(e)
        case Ok(startsAt) =>
          match Boundary(z, original, billing, cycle + 1)
          case Err(e) => Err(e)
          case Ok(endsAt) => Ok(Period(billing, anchorAt, cycle, startsAt, endsAt))
  }

  lemma BoundaryTargetValid(anchor: DateTime, billing: Billing, cycle: int)
    requires ValidDateTime(anchor)
    ensures ValidDateTime(BoundaryTarget(anchor, billing, cycle))
  {
  }

  /** Boundary k lies this many months after the anchor. */
  function Months(billing: Billing, k: int): int {
    if billing == Month then k else 12 * k
  }

  /** The year of the month so many months after the anchor's. */
  function BoundaryYear(anchor: DateTime, months: int): int {
    (anchor.year * 12 + anchor.month - 1 + months) / 12
  }

  /** p is the local time of the boundary: so many whole months after the anchor, on its day of the month or on the last
      day of a shorter month, at its time of day. */
  predicate IsBoundary(anchor: DateTime, months: int, p: DateTime) {
    && 1 <= p.month <= 12
    && p.year * 12 + p.month == anchor.year * 12 + anchor.month + months
    && (p.day == anchor.day <= DaysInMonth(p.year, p.month) || p.day == DaysInMonth(p.year, p.month) < anchor.day)
    && p.hour == anchor.hour && p.minute == anchor.minute && p.second == anchor.second
    && p.millisecond == anchor.millisecond
  }

  /** The first instant that shows the boundary. */
  ghost predicate FirstBoundary(z: Zone, anchor: DateTime, months: int, t: int) {
    && IsBoundary(anchor, months, LocalDateTime(z, t))
    && forall u :: u < t ==> !IsBoundary(anchor, months, LocalDateTime(z, u))
  }

  /** Some instant shows the boundary, and it lies in the supported years. */
  ghost predicate BoundaryExists(z: Zone, anchor: DateTime, months: int) {
    1 <= BoundaryYear(anchor, months) <= 9_999 && exists t :: IsBoundary(anchor, months, LocalDateTime(z, t))
  }

  lemma OneBoundary(anchor: DateTime, billing: Billing, k: int, p: DateTime)
    requires ValidDateTime(anchor) && billing != Custom
    ensures IsBoundary(anchor, Months(billing, k), p) <==> p == BoundaryTarget(anchor, billing, k)
    ensures BoundaryYear(anchor, Months(billing, k)) == BoundaryTarget(anchor, billing, k).year
  {
    var n := anchor.year * 12 + anchor.month - 1 + Months(billing, k);
    if billing == Year {
      QuotientIs(n, 12, anchor.year + k, anchor.month - 1);
    }
    if 1 <= p.month <= 12 && p.year * 12 + p.month - 1 == n {
      QuotientIs(n, 12, p.year, p.month - 1);
    }
  }

  /** When a boundary resolves, to what, and which error it is otherwise. */
  lemma BoundaryIff(z: Zone, anchor: DateTime, billing: Billing, k: int)
    requires ZoneOk(z) && ValidDateTime(anchor) && billing != Custom
    ensures Boundary(z, anchor, billing, k).Ok? <==> BoundaryExists(z, anchor, Months(billing, k))
    ensures match Boundary(z, anchor, billing, k)
            case Ok(t) => FirstBoundary(z, anchor, Months(billing, k), t)
            case Err(e) =>
              e == if 1 <= BoundaryYear(anchor, Months(billing, k)) <= 9_999 then NoSuchLocalTime else OutOfRange
  {
    hide ZoneOk, LocalDateTime, UtcMillis, InstantOf, IsBoundary, BoundaryYear, ValidDateTime;
    var target := BoundaryTarget(anchor, billing, k);
    forall p ensures IsBoundary(anchor, Months(billing, k), p) <==> p == target {
      OneBoundary(anchor, billing, k, p);
    }
    OneBoundary(anchor, billing, k, target);
    BoundaryIsSafe(anchor, billing, k);
    SearchIsExact(z, target);
  }

  /** The checks for safe integers refuse nothing that the range of years accepts. */
  lemma BoundaryIsSafe(anchor: DateTime, billing: Billing, k: int)
    requires ValidDateTime(anchor)
    ensures 1 <= anchor.month <= 12 && 1 <= BoundaryTarget(anchor, billing, k).month <= 12
    ensures billing == Month && 1 <= BoundaryTarget(anchor, billing, k).year <= MAX_YEAR ==>
      Safe(anchor.year * 12 + anchor.month - 1 + k)
  {
  }

  /** Clamping never drifts: the clock at boundary k shows the anchor's time of day, k whole months (or years) after
      the anchor's month, on the anchor's own day of the month or on the last day of a shorter month, whatever
      months came before. It is the first instant that does. */
  lemma BoundariesNeverDrift(z: Zone, anchorAt: int, billing: Billing, k: int)
    requires ZoneOk(z)
    requires Boundary(z, LocalDateTime(z, anchorAt), billing, k).Ok?
    ensures var anchor := LocalDateTime(z, anchorAt);
      var t := Boundary(z, anchor, billing, k).value;
      var shown := LocalDateTime(z, t);
      && FirstShows(z, shown, t)
      && shown.TimeOfDay() == anchor.TimeOfDay()
      && shown.year * 12 + shown.month == anchor.year * 12 + anchor.month + (if billing == Month then k else 12 * k)
      && (shown.day == anchor.day <= DaysInMonth(shown.year, shown.month)
          || shown.day == DaysInMonth(shown.year, shown.month) < anchor.day)
  {
    hide ZoneOk, LocalDateTime, UtcMillis, InstantOf;
    var anchor := LocalDateTime(z, anchorAt);
    AnchorValid(z, anchorAt);
    SearchIsExact(z, BoundaryTarget(anchor, billing, k));
  }

  lemma AnchorValid(z: Zone, t: int)
    ensures ValidDateTime(LocalDateTime(z, t))
  {
  }

  /** Twelve monthly cycles are one yearly cycle, in errors too. */
  lemma YearIsTwelveMonths(z: Zone, anchorAt: int, k: nat)
    requires 1 <= LocalDateTime(z, anchorAt).year <= MAX_YEAR + 1
    ensures var anchor := LocalDateTime(z, anchorAt);
      Boundary(z, anchor, Month, 12 * k) == Boundary(z, anchor, Year, k)
  {
    hide UtcMillis, InstantOf, DateTimeOf, LocalDateTime;
    AnchorValid(z, anchorAt);
    var anchor := LocalDateTime(z, anchorAt);
    QuotientIs(anchor.year * 12 + anchor.month - 1 + 12 * k, 12, anchor.year + k, anchor.month - 1);
  }

  /** The local times of later boundaries lie at least a day apart. */
  lemma TargetsApart(anchor: DateTime, billing: Billing, j: int, k: int)
    requires ValidDateTime(anchor) && billing != Custom && j < k
    ensures UtcMillis(BoundaryTarget(anchor, billing, j)) + MS_PER_DAY <= UtcMillis(BoundaryTarget(anchor, billing, k))
  {
    var a, b := BoundaryTarget(anchor, billing, j), BoundaryTarget(anchor, billing, k);
    assert Before(a.Date(), b.Date()) by {
      if billing == Month {
        var m, n := anchor.year * 12 + anchor.month - 1 + j, anchor.year * 12 + anchor.month - 1 + k;
        assert m == 12 * (m / 12) + m % 12 && n == 12 * (n / 12) + n % 12;
      }
    }
    BoundaryTargetValid(anchor, billing, j);
    BoundaryTargetValid(anchor, billing, k);
    DayOrder(a.Date(), b.Date());
    assert a.TimeOfDay() == b.TimeOfDay();
  }

  lemma TargetZero(anchor: DateTime, billing: Billing)
    requires ValidDateTime(anchor)
    ensures BoundaryTarget(anchor, billing, 0) == anchor
  {
    QuotientIs(anchor.year * 12 + anchor.month - 1, 12, anchor.year, anchor.month - 1);
  }

  /** The start of period k: the anchor itself for k = 0, although the clock may have shown the anchor's local time
      once before. */
  ghost function StartOf(z: Zone, anchorAt: int, billing: Billing, k: nat): int
    requires ResolvePeriod(z, anchorAt, billing, k).Ok?
  {
    ResolvePeriod(z, anchorAt, billing, k).value.startsAt
  }

  ghost function EndOf(z: Zone, anchorAt: int, billing: Billing, k: nat): int
    requires ResolvePeriod(z, anchorAt, billing, k).Ok?
  {
    ResolvePeriod(z, anchorAt, billing, k).value.endsAt
  }

  ghost predicate AllResolve(z: Zone, anchorAt: int, billing: Billing, n: nat) {
    forall k: nat :: k < n ==> ResolvePeriod(z, anchorAt, billing, k).Ok?
  }

  /** The local time of the start of period k. */
  lemma StartShows(z: Zone, anchorAt: int, billing: Billing, k: nat)
    requires ZoneOk(z) && ResolvePeriod(z, anchorAt, billing, k).Ok?
    ensures var t, anchor := StartOf(z, anchorAt, billing, k), LocalDateTime(z, anchorAt);
      ValidDateTime(anchor) && t <= UtcMillis(BoundaryTarget(anchor, billing, k)) <= t + SIX_HOURS
  {
    hide ZoneOk, LocalDateTime, UtcMillis, InstantOf, DateTimeOf;
    AnchorValid(z, anchorAt);
    var anchor := LocalDateTime(z, anchorAt);
    if k == 0 {
      LocalShows(z, anchorAt);
      OffsetAt(z, anchorAt);
      TargetZero(anchor, billing);
    } else {
      InstantNearLocal(z, BoundaryTarget(anchor, billing, k));
    }
  }

  /** Each period is non-empty and ends where the next one starts. */
  lemma PeriodsMeet(z: Zone, anchorAt: int, billing: Billing, k: nat)
    requires ZoneOk(z) && ResolvePeriod(z, anchorAt, billing, k).Ok?
    ensures StartOf(z, anchorAt, billing, k) < EndOf(z, anchorAt, billing, k)
    ensures ResolvePeriod(z, anchorAt, billing, k + 1).Ok? ==>
      EndOf(z, anchorAt, billing, k) == StartOf(z, anchorAt, billing, k + 1)
  {
    hide ZoneOk, LocalDateTime, UtcMillis, InstantOf, DateTimeOf;
    var anchor := LocalDateTime(z, anchorAt);
    StartShows(z, anchorAt, billing, k);
    TargetsApart(anchor, billing, k, k + 1);
    InstantNearLocal(z, BoundaryTarget(anchor, billing, k + 1));
  }

  ghost predicate Covers(z: Zone, anchorAt: int, billing: Billing, k: nat, t: int)
    requires ResolvePeriod(z, anchorAt, billing, k).Ok?
  {
    StartOf(z, anchorAt, billing, k) <= t < EndOf(z, anchorAt, billing, k)
  }

  lemma {:induction false} LaterStarts(z: Zone, anchorAt: int, billing: Billing, n: nat, j: nat, k: nat)
    requires ZoneOk(z) && AllResolve(z, anchorAt, billing, n) && j < k < n
    ensures EndOf(z, anchorAt, billing, j) <= StartOf(z, anchorAt, billing, k)
    decreases k - j
  {
    hide ZoneOk, ResolvePeriod;
    PeriodsMeet(z, anchorAt, billing, j);
    if j + 1 == k {
    } else {
      PeriodsMeet(z, anchorAt, billing, j + 1);
      LaterStarts(z, anchorAt, billing, n, j + 1, k);
    }
  }

  lemma {:induction false} SomePeriodCovers(z: Zone, anchorAt: int, billing: Billing, n: nat, t: int) returns (k: nat)
    requires ZoneOk(z) && n > 0 && AllResolve(z, anchorAt, billing, n)
    requires anchorAt <= t < EndOf(z, anchorAt, billing, n - 1)
    ensures k < n && Covers(z, anchorAt, billing, k, t)
  {
    hide ZoneOk, ResolvePeriod;
    FirstStart(z, anchorAt, billing);
    if n == 1 || StartOf(z, anchorAt, billing, n - 1) <= t {
      k := n - 1;
    } else {
      PeriodsMeet(z, anchorAt, billing, n - 2);
      k := SomePeriodCovers(z, anchorAt, billing, n - 1, t);
    }
  }

  /** As long as boundaries resolve, the periods of an anchor tile time from the anchor on: the first starts at the
      anchor, each ends where the next starts, and every instant up to the end of the last lies in exactly one. */
  lemma PeriodsTile(z: Zone, anchorAt: int, billing: Billing, n: nat, t: int)
    requires ZoneOk(z) && n > 0 && AllResolve(z, anchorAt, billing, n)
    ensures StartOf(z, anchorAt, billing, 0) == anchorAt
    ensures forall k: nat :: k + 1 < n ==> EndOf(z, anchorAt, billing, k) == StartOf(z, anchorAt, billing, k + 1)
    ensures anchorAt <= t < EndOf(z, anchorAt, billing, n - 1)
            <==> exists k: nat :: k < n && Covers(z, anchorAt, billing, k, t)
    ensures forall j: nat, k: nat ::
              j < k < n ==> !(Covers(z, anchorAt, billing, j, t) && Covers(z, anchorAt, billing, k, t))
  {
    hide ZoneOk, ResolvePeriod;
    FirstStart(z, anchorAt, billing);
    forall k: nat | k + 1 < n
      ensures EndOf(z, anchorAt, billing, k) == StartOf(z, anchorAt, billing, k + 1)
    {
      PeriodsMeet(z, anchorAt, billing, k);
    }
    forall j: nat, k: nat | j < k < n
      ensures !(Covers(z, anchorAt, billing, j, t) && Covers(z, anchorAt, billing, k, t))
    {
      LaterStarts(z, anchorAt, billing, n, j, k);
    }
    if anchorAt <= t < EndOf(z, anchorAt, billing, n - 1) {
      var k := SomePeriodCovers(z, anchorAt, billing, n, t);
    }
    forall k: nat | k < n && Covers(z, anchorAt, billing, k, t)
      ensures anchorAt <= t < EndOf(z, anchorAt, billing, n - 1)
    {
      WithinEnds(z, anchorAt, billing, n, k);
    }
  }

  lemma WithinEnds(z: Zone, anchorAt: int, billing: Billing, n: nat, k: nat)
    requires ZoneOk(z) && k < n && AllResolve(z, anchorAt, billing, n)
    ensures anchorAt <= StartOf(z, anchorAt, billing, k)
    ensures EndOf(z, anchorAt, billing, k) <= EndOf(z, anchorAt, billing, n - 1)
  {
    hide ZoneOk, ResolvePeriod;
    FirstStart(z, anchorAt, billing);
    PeriodsMeet(z, anchorAt, billing, 0);
    PeriodsMeet(z, anchorAt, billing, n - 1);
    if 0 < k {
      LaterStarts(z, anchorAt, billing, n, 0, k);
    }
    if k < n - 1 {
      LaterStarts(z, anchorAt, billing, n, k, n - 1);
    }
  }

  lemma FirstStart(z: Zone, anchorAt: int, billing: Billing)
    requires ResolvePeriod(z, anchorAt, billing, 0).Ok?
    ensures StartOf(z, anchorAt, billing, 0) == anchorAt
  {
  }

  /** Exactly when a billing period resolves, and to what: the billing is monthly or yearly, the cycle is in range, the
      anchor's UTC year is 1 to 9999, and the boundaries of the cycle and of the next lie in the years 1 to 9999 and are
      shown by some instant. The period carries the billing, the anchor and the cycle, starts at the anchor or at the
      first instant of its boundary, and ends at the first instant of the next. */
  lemma ResolvePeriodIff(z: Zone, anchorAt: int, billing: Billing, cycle: int)
    requires ZoneOk(z)
    ensures var anchor := LocalDateTime(z, anchorAt);
      ResolvePeriod(z, anchorAt, billing, cycle).Ok? <==>
        && billing in {Month, Year} && 0 <= cycle < 9_007_199_254_740_991
        && 1 <= DateTimeOf(anchorAt).year <= 9_999
        && BoundaryExists(z, anchor, Months(billing, cycle))
        && BoundaryExists(z, anchor, Months(billing, cycle + 1))
    ensures ResolvePeriod(z, anchorAt, billing, cycle).Ok? ==>
      var p, anchor := ResolvePeriod(z, anchorAt, billing, cycle).value, LocalDateTime(z, anchorAt);
      && p.billing == billing && p.anchorAt == anchorAt && p.cycle == cycle
      && (if cycle == 0 then p.startsAt == anchorAt
          else FirstBoundary(z, anchor, Months(billing, cycle), p.startsAt))
      && FirstBoundary(z, anchor, Months(billing, cycle + 1), p.endsAt)
  {
    hide ZoneOk, LocalDateTime, DateTimeOf, Boundary, IsBoundary, FirstBoundary, BoundaryExists;
    AnchorValid(z, anchorAt);
    var anchor := LocalDateTime(z, anchorAt);
    if billing != Custom {
      BoundaryIff(z, anchor, billing, cycle);
      BoundaryIff(z, anchor, billing, cycle + 1);
      if cycle == 0 && 1 <= DateTimeOf(anchorAt).year {
        AnchorIsBoundary(z, anchorAt, billing);
      }
    }
  }

  /** The anchor's own local time is boundary 0, in a supported year when the next boundary is. */
  lemma AnchorIsBoundary(z: Zone, anchorAt: int, billing: Billing)
    requires ZoneOk(z) && billing != Custom && 1 <= DateTimeOf(anchorAt).year
    ensures var anchor := LocalDateTime(z, anchorAt);
      BoundaryExists(z, anchor, Months(billing, 1)) ==> BoundaryExists(z, anchor, Months(billing, 0))
  {
    hide ZoneOk, LocalDateTime, DateTimeOf, InstantOf;
    AnchorValid(z, anchorAt);
    LocalYear(z, anchorAt);
    var anchor := LocalDateTime(z, anchorAt);
    assert IsBoundary(anchor, 0, LocalDateTime(z, anchorAt));
    QuotientIs(anchor.year * 12 + anchor.month - 1, 12, anchor.year, anchor.month - 1);
  }

  /** Local time is not behind UTC, so neither is its year. */
  lemma LocalYear(z: Zone, t: int)
    requires ZoneOk(z)
    ensures DateTimeOf(t).year <= LocalDateTime(z, t).year
  {
    hide ZoneOk, DateTimeOf, LocalDateTime, UtcMillis;
    LocalShows(z, t);
    OffsetAt(z, t);
    YearsFollow(t, t + z(t));
  }

  /** Which error it is otherwise, in the order of the checks. */
  lemma PeriodErrors(z: Zone, anchorAt: int, billing: Billing, cycle: int)
    requires ZoneOk(z) && ResolvePeriod(z, anchorAt, billing, cycle).Err?
    ensures var anchor := LocalDateTime(z, anchorAt);
      var failing := if cycle > 0 && !BoundaryExists(z, anchor, Months(billing, cycle)) then cycle else cycle + 1;
      ResolvePeriod(z, anchorAt, billing, cycle).error ==
        if billing == Custom then UnsupportedBilling
        else if !(0 <= cycle < 9_007_199_254_740_991) then BadCycle
        else if !(1 <= DateTimeOf(anchorAt).year <= 9_999) then BadInstant
        else if !(1 <= BoundaryYear(anchor, Months(billing, failing)) <= 9_999) then OutOfRange
        else NoSuchLocalTime
  {
    hide ZoneOk, LocalDateTime, DateTimeOf, Boundary, IsBoundary, FirstBoundary, BoundaryExists, BoundaryYear;
    AnchorValid(z, anchorAt);
    if billing != Custom {
      BoundaryIff(z, LocalDateTime(z, anchorAt), billing, cycle);
      BoundaryIff(z, LocalDateTime(z, anchorAt), billing, cycle + 1);
    }
  }
}
