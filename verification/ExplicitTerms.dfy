/** Custom billing periods written as a pair of dates, and the schema that accepts stored periods. */
module ExplicitTerms {
  import opened Wrappers
  import opened CivilCalendar
  import opened CivilText
  import opened BillingZone
  import opened CommercialTerms

  function Midnight(c: Civil): DateTime {
    DateTime(c.year, c.month, c.day, 0, 0, 0, 0)
  }

  predicate AtMidnight(p: DateTime) {
    p.hour == 0 && p.minute == 0 && p.second == 0 && p.millisecond == 0
  }

  /** The date after c, as Date.setUTCFullYear computes it from an overflowing day. */
  function DayAfter(c: Civil): Civil
    requires 1 <= c.month <= 12
  {
    CivilFromDay(DayNumber(c.(day := c.day + 1)))
  }

  /** The period that covers the local dates termStart to termEnd, both included. */
  function ResolveTerm(z: Zone, termStart: string, termEnd: string): Result<Period, TermError> {
    match Parse(termStart)
    case None => Err(BadDate)
    case Some(start) =>
      match Parse(termEnd)
      case None => Err(BadDate)
      case Some(end) =>
        if TextLess(termEnd, termStart) then Err(EndsBeforeStart)
        else if DayAfter(end).year > MAX_YEAR then Err(OutOfRange)
        else
          match Resolved(z, Midnight(start))
          case Err(e) => Err(e)
          case Ok(startsAt) =>
            match Resolved(z, Midnight(DayAfter(end)))
            case Err(e) => Err(e)
            case Ok(endsAt) => Ok(Period(Custom, startsAt, 0, startsAt, endsAt))
  }

  /** The local date of an instant in the text form of the terms. */
  function LocalDateText(z: Zone, t: int): string {
    Format(LocalDateTime(z, t).Date())
  }

  /** The dates of a period; only periods between local midnights have them. */
  function TermOf(z: Zone, startsAt: int, endsAt: int): Result<(string, string), TermError> {
    match CheckedInstant(startsAt)
    case Err(e) => Err(e)
    case Ok(_) =>
      match CheckedInstant(endsAt)
      case Err(e) => Err(e)
      case Ok(_) =>
        if !AtMidnight(LocalDateTime(z, startsAt)) || !AtMidnight(LocalDateTime(z, endsAt)) then Err(NotMidnight)
        else Ok((LocalDateText(z, startsAt), LocalDateText(z, endsAt - 1)))
  }

  /** The period schema: cycle and boundaries must be those that the calendar gives. */
  predicate SchemaAccepts(z: Zone, p: Period) {
    && 0 <= p.cycle <= MAX_SAFE - 1
    && match p.billing
       case Custom =>
         (match TermOf(z, p.startsAt, p.endsAt)
          case Err(_) => false
          case Ok((termStart, termEnd)) =>
            match ResolveTerm(z, termStart, termEnd)
            case Err(_) => false
            case Ok(expected) =>
              && p.cycle == 0 && p.anchorAt == p.startsAt
              && p.startsAt == expected.startsAt && p.endsAt == expected.endsAt)
       case _ =>
         match ResolvePeriod(z, p.anchorAt, p.billing, p.cycle)
         case Err(_) => false
         case Ok(expected) => p.startsAt == expected.startsAt && p.endsAt == expected.endsAt
  }

  lemma NextDay(c: Civil)
    requires ValidCivil(c)
    ensures DayNumber(DayAfter(c)) == DayNumber(c) + 1 && ValidCivil(DayAfter(c)) && Before(c, DayAfter(c))
  {
    DayOrder(c, DayAfter(c));
  }

  lemma MidnightMillis(c: Civil)
    requires ValidCivil(c)
    ensures ValidDateTime(Midnight(c)) && UtcMillis(Midnight(c)) == DayNumber(c) * MS_PER_DAY
  {
  }

  lemma MidnightOf(p: DateTime)
    requires AtMidnight(p)
    ensures p == Midnight(p.Date())
  {
  }

  /** Every instant of a local day lies in the day's milliseconds. */
  lemma DateAt(z: Zone, t: int, c: Civil)
    requires ZoneOk(z) && ValidCivil(c)
    requires DayNumber(c) * MS_PER_DAY <= t + z(t) < DayNumber(c) * MS_PER_DAY + MS_PER_DAY
    ensures LocalDateTime(z, t).Date() == c
  {
    hide ZoneOk;
    LocalShows(z, t);
    var p := LocalDateTime(z, t);
    TimeInDay(p);
    QuotientIs(t + z(t), MS_PER_DAY, DayNumber(c), t + z(t) - DayNumber(c) * MS_PER_DAY);
    DayOrder(p.Date(), c);
  }

  /** The last millisecond before the first instant of a midnight belongs to the day before. */
  lemma DateBeforeMidnight(z: Zone, t: int, c: Civil)
    requires ZoneOk(z) && ValidCivil(c) && FirstShows(z, Midnight(DayAfter(c)), t)
    ensures LocalDateTime(z, t - 1).Date() == c
  {
    hide ZoneOk, FirstShows, LocalDateTime, UtcMillis, DayAfter, DayNumber, ValidDateTime;
    NextDay(c);
    MidnightMillis(DayAfter(c));
    JustBefore(z, Midnight(DayAfter(c)), t);
    DateAt(z, t - 1, c);
  }

  /** What it takes for a term to resolve to given instants. */
  lemma TermResolvesIff(z: Zone, start: Civil, end: Civil, a: int, b: int)
    requires ZoneOk(z) && InCalendar(start) && InCalendar(end)
    ensures ResolveTerm(z, Format(start), Format(end)) == Ok(Period(Custom, a, 0, a, b))
      <==> !Before(end, start) && DayAfter(end).year <= 9_999
           && FirstShows(z, Midnight(start), a) && FirstShows(z, Midnight(DayAfter(end)), b)
  {
    hide ZoneOk, TextLess, Format, Parse, LocalDateTime, InstantOf;
    ParseFormat(start);
    ParseFormat(end);
    TextOrder(end, start);
    NextDay(end);
    SearchIsExact(z, Midnight(start));
    SearchIsExact(z, Midnight(DayAfter(end)));
    OneFirst(z, Midnight(start));
    OneFirst(z, Midnight(DayAfter(end)));
  }

  lemma OneFirst(z: Zone, target: DateTime)
    ensures forall t, u :: FirstShows(z, target, t) && FirstShows(z, target, u) ==> t == u
  {
  }

  /** A resolved term starts before it ends, and ends within the supported years. */
  lemma TermBounds(z: Zone, start: Civil, end: Civil, a: int, b: int)
    requires ZoneOk(z) && InCalendar(start) && InCalendar(end) && !Before(end, start)
    requires DayAfter(end).year <= MAX_YEAR
    requires FirstShows(z, Midnight(start), a) && FirstShows(z, Midnight(DayAfter(end)), b)
    ensures a < b && DateTimeOf(b).year <= MAX_YEAR
  {
    hide ZoneOk, LocalDateTime, UtcMillis, DayAfter, DayNumber, DateTimeOf;
    NextDay(end);
    DayOrder(end, start);
    DayOrder(start, end);
    MidnightMillis(start);
    MidnightMillis(DayAfter(end));
    LocalShows(z, a);
    LocalShows(z, b);
    OffsetAt(z, a);
    OffsetAt(z, b);
    YearsFollow(b, UtcMillis(Midnight(DayAfter(end))));
    DateTimeRoundTrip(Midnight(DayAfter(end)));
  }

  /** Reading back the dates of a resolved term gives the term, as long as its start lies in the years that instants
      may have. */
  lemma TermRoundTrip(z: Zone, termStart: string, termEnd: string)
    requires ZoneOk(z) && ResolveTerm(z, termStart, termEnd).Ok?
    ensures var p := ResolveTerm(z, termStart, termEnd).value;
      DateTimeOf(p.startsAt).year >= 1 ==> TermOf(z, p.startsAt, p.endsAt) == Ok((termStart, termEnd))
  {
    hide ZoneOk, LocalDateTime, DateTimeOf, FirstShows, Format, Parse, DayAfter, InstantOf, TextLess;
    var p := ResolveTerm(z, termStart, termEnd).value;
    var (start, end) := (Parse(termStart).value, Parse(termEnd).value);
    FormatParse(termStart);
    FormatParse(termEnd);
    assert p == Period(Custom, p.startsAt, 0, p.startsAt, p.endsAt);
    TermResolvesIff(z, start, end, p.startsAt, p.endsAt);
    TermBounds(z, start, end, p.startsAt, p.endsAt);
    YearsFollow(p.startsAt, p.endsAt);
    DateBeforeMidnight(z, p.endsAt, end);
    ShownFirst(z, Midnight(start), p.startsAt);
    ShownFirst(z, Midnight(DayAfter(end)), p.endsAt);
  }

  lemma ShownFirst(z: Zone, target: DateTime, t: int)
    requires FirstShows(z, target, t)
    ensures LocalDateTime(z, t) == target
  {
  }

  /** A pair of instants is the period of the dates read from it exactly when it runs forwards, between the first
      showings of two midnights, and ends no later than the last supported date. */
  lemma PeriodRoundTripIff(z: Zone, a: int, b: int)
    requires ZoneOk(z) && TermOf(z, a, b).Ok?
    ensures var (termStart, termEnd) := TermOf(z, a, b).value;
      ResolveTerm(z, termStart, termEnd) == Ok(Period(Custom, a, 0, a, b))
      <==> a < b && LocalDateTime(z, b).year <= MAX_YEAR
           && FirstShows(z, LocalDateTime(z, a), a) && FirstShows(z, LocalDateTime(z, b), b)
  {
    hide ZoneOk, LocalDateTime, DateTimeOf, FirstShows, Format, Parse, DayAfter, InstantOf, TextLess, ResolveTerm;
    var (termStart, termEnd) := TermOf(z, a, b).value;
    if ResolveTerm(z, termStart, termEnd) == Ok(Period(Custom, a, 0, a, b)) {
      ResolvedTermShape(z, termStart, termEnd, a, b);
    }
    if a < b && LocalDateTime(z, b).year <= MAX_YEAR
       && FirstShows(z, LocalDateTime(z, a), a) && FirstShows(z, LocalDateTime(z, b), b) {
      MidnightPairResolves(z, a, b);
    }
  }

  lemma ResolvedTermShape(z: Zone, termStart: string, termEnd: string, a: int, b: int)
    requires ZoneOk(z) && ResolveTerm(z, termStart, termEnd) == Ok(Period(Custom, a, 0, a, b))
    ensures a < b && LocalDateTime(z, b).year <= MAX_YEAR
    ensures FirstShows(z, LocalDateTime(z, a), a) && FirstShows(z, LocalDateTime(z, b), b)
  {
    hide ZoneOk, LocalDateTime, DateTimeOf, FirstShows, Format, Parse, DayAfter, InstantOf, TextLess;
    var (start, end) := (Parse(termStart).value, Parse(termEnd).value);
    FormatParse(termStart);
    FormatParse(termEnd);
    TermResolvesIff(z, start, end, a, b);
    TermBounds(z, start, end, a, b);
    ShownFirst(z, Midnight(start), a);
    ShownFirst(z, Midnight(DayAfter(end)), b);
  }

  /** The day whose successor starts at a midnight. */
  function DayBefore(c: Civil): Civil
    requires 1 <= c.month <= 12
  {
    CivilFromDay(DayNumber(c) - 1)
  }

  lemma PreviousDay(c: Civil)
    requires ValidCivil(c)
    ensures ValidCivil(DayBefore(c)) && DayAfter(DayBefore(c)) == c && DayNumber(DayBefore(c)) == DayNumber(c) - 1
  {
    NextDay(DayBefore(c));
    DayOrder(DayAfter(DayBefore(c)), c);
  }

  lemma LocalYears(z: Zone, t: int)
    requires ZoneOk(z) && DateTimeOf(t).year >= 1
    ensures LocalDateTime(z, t).year >= 1 && ValidDateTime(LocalDateTime(z, t))
  {
    hide ZoneOk, DateTimeOf, UtcMillis;
    LocalShows(z, t);
    OffsetAt(z, t);
    AnchorValid(z, t);
    YearsFollow(t, t + z(t));
  }

  lemma MidnightPairResolves(z: Zone, a: int, b: int)
    requires ZoneOk(z) && TermOf(z, a, b).Ok?
    requires a < b && LocalDateTime(z, b).year <= MAX_YEAR
    requires FirstShows(z, LocalDateTime(z, a), a) && FirstShows(z, LocalDateTime(z, b), b)
    ensures var (termStart, termEnd) := TermOf(z, a, b).value;
      ResolveTerm(z, termStart, termEnd) == Ok(Period(Custom, a, 0, a, b))
  {
    hide ZoneOk, LocalDateTime, DateTimeOf, FirstShows, Format, Parse, DayAfter, DayBefore, InstantOf, TextLess,
         ResolveTerm, UtcMillis, DayNumber, Before, ValidCivil;
    var (start, next) := (LocalDateTime(z, a).Date(), LocalDateTime(z, b).Date());
    LocalYears(z, a);
    LocalYears(z, b);
    ValidParts(LocalDateTime(z, a));
    ValidParts(LocalDateTime(z, b));
    var end := DayBefore(next);
    MidnightOf(LocalDateTime(z, a));
    MidnightOf(LocalDateTime(z, b));
    PreviousDay(next);
    NextDay(end);
    DateBeforeMidnight(z, b, end);
    MidnightsInOrder(z, start, next, a, b);
    EndInCalendar(start, end, next);
    TermResolvesIff(z, start, end, a, b);
  }

  lemma ValidParts(p: DateTime)
    requires ValidDateTime(p)
    ensures ValidCivil(p.Date()) && 1 <= p.month <= 12
  {
  }

  /** Of two different first midnights the earlier instant belongs to the earlier date. */
  lemma MidnightsInOrder(z: Zone, c: Civil, d: Civil, a: int, b: int)
    requires ZoneOk(z) && ValidCivil(c) && ValidCivil(d) && a < b
    requires FirstShows(z, Midnight(c), a) && FirstShows(z, Midnight(d), b)
    ensures DayNumber(c) < DayNumber(d)
  {
    hide ZoneOk, LocalDateTime, UtcMillis, DayNumber, ValidCivil, Before;
    LocalShows(z, a);
    LocalShows(z, b);
    OffsetAt(z, a);
    OffsetAt(z, b);
    MidnightMillis(c);
    MidnightMillis(d);
    DayOrder(c, d);
  }

  lemma EndInCalendar(start: Civil, end: Civil, next: Civil)
    requires ValidCivil(start) && ValidCivil(end) && ValidCivil(next) && start.year >= 1
    requires DayNumber(start) <= DayNumber(end) && DayNumber(end) + 1 == DayNumber(next)
    requires next.year <= MAX_YEAR
    ensures InCalendar(start) && InCalendar(end) && !Before(end, start)
  {
    DayOrder(end, start);
    DayOrder(next, end);
  }

  /** The schema accepts a custom period exactly when it has cycle 0, is anchored at its start, starts in a supported
      year, and is the period of some pair of dates. */
  lemma CustomAcceptedIff(z: Zone, p: Period)
    requires ZoneOk(z) && p.billing == Custom
    ensures SchemaAccepts(z, p)
      <==> p.cycle == 0 && p.anchorAt == p.startsAt && DateTimeOf(p.startsAt).year >= 1
           && exists s, e :: ResolveTerm(z, s, e) == Ok(p)
  {
    hide ZoneOk, LocalDateTime, DateTimeOf, Parse, Format, DayAfter, InstantOf, TextLess;
    if SchemaAccepts(z, p) {
      var (s, e) := TermOf(z, p.startsAt, p.endsAt).value;
      assert ResolveTerm(z, s, e) == Ok(p);
    }
    if s, e :| p.cycle == 0 && p.anchorAt == p.startsAt && DateTimeOf(p.startsAt).year >= 1
               && ResolveTerm(z, s, e) == Ok(p) {
      TermRoundTrip(z, s, e);
    }
  }

  /** Which pairs of instants have dates, and which dates: both lie in the supported years and show midnights; the term
      starts on the date of the first and ends on the date shown just before the second. */
  lemma TermReadsIff(z: Zone, a: int, b: int)
    ensures TermOf(z, a, b).Ok? <==>
      && 1 <= DateTimeOf(a).year <= 9_999 && 1 <= DateTimeOf(b).year <= 9_999
      && (exists c :: LocalDateTime(z, a) == Midnight(c)) && (exists c :: LocalDateTime(z, b) == Midnight(c))
    ensures TermOf(z, a, b).Ok? ==>
      forall c, d :: LocalDateTime(z, a) == Midnight(c) && LocalDateTime(z, b - 1).Date() == d ==>
        TermOf(z, a, b) == Ok((Format(c), Format(d)))
  {
    hide LocalDateTime, DateTimeOf, Format;
    if AtMidnight(LocalDateTime(z, a)) {
      MidnightOf(LocalDateTime(z, a));
    }
    if AtMidnight(LocalDateTime(z, b)) {
      MidnightOf(LocalDateTime(z, b));
    }
  }

  lemma OneFirstBoundary(z: Zone, anchor: DateTime, months: int, t: int, u: int)
    requires FirstBoundary(z, anchor, months, t) && FirstBoundary(z, anchor, months, u)
    ensures t == u
  {
  }

  /** The schema accepts a monthly or yearly period exactly when its cycle is in range, its anchor in the supported
      years, its boundaries exist, and it lies between them. */
  lemma CycleAcceptedIff(z: Zone, p: Period)
    requires ZoneOk(z) && p.billing != Custom
    ensures var anchor := LocalDateTime(z, p.anchorAt);
      SchemaAccepts(z, p) <==>
        && 0 <= p.cycle < 9_007_199_254_740_991
        && 1 <= DateTimeOf(p.anchorAt).year <= 9_999
        && BoundaryExists(z, anchor, Months(p.billing, p.cycle))
        && BoundaryExists(z, anchor, Months(p.billing, p.cycle + 1))
        && (if p.cycle == 0 then p.startsAt == p.anchorAt
            else FirstBoundary(z, anchor, Months(p.billing, p.cycle), p.startsAt))
        && FirstBoundary(z, anchor, Months(p.billing, p.cycle + 1), p.endsAt)
  {
    hide ZoneOk, LocalDateTime, DateTimeOf, FirstBoundary, BoundaryExists, ResolvePeriod, TermOf, ResolveTerm;
    ResolvePeriodIff(z, p.anchorAt, p.billing, p.cycle);
    if ResolvePeriod(z, p.anchorAt, p.billing, p.cycle).Ok? {
      var anchor, r := LocalDateTime(z, p.anchorAt), ResolvePeriod(z, p.anchorAt, p.billing, p.cycle).value;
      if FirstBoundary(z, anchor, Months(p.billing, p.cycle + 1), p.endsAt) {
        OneFirstBoundary(z, anchor, Months(p.billing, p.cycle + 1), p.endsAt, r.endsAt);
      }
      if p.cycle > 0 && FirstBoundary(z, anchor, Months(p.billing, p.cycle), p.startsAt) {
        OneFirstBoundary(z, anchor, Months(p.billing, p.cycle), p.startsAt, r.startsAt);
      }
    }
  }
}
