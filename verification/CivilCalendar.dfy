/** The proleptic Gregorian calendar and its correspondence with day numbers and with milliseconds. */
module CivilCalendar {

  const MS_PER_DAY: int := 86_400_000
  const MS_PER_HOUR: int := 3_600_000

  datatype Civil = Civil(year: int, month: int, day: int)

  predicate IsLeap(year: int) {
    year % 4 == 0 && (year % 100 != 0 || year % 400 == 0)
  }

  function DaysInMonth(year: int, month: int): int {
    if month == 2 then if IsLeap(year) then 29 else 28
    else if month == 4 || month == 6 || month == 9 || month == 11 then 30 else 31
  }

  predicate ValidCivil(c: Civil) {
    1 <= c.month <= 12 && 1 <= c.day <= DaysInMonth(c.year, c.month)
  }

  /** The number of the first day of a year; day 0 is 1970-01-01. */
  function YearStart(year: int): int {
    365 * (year - 1970) + (year - 1969) / 4 - (year - 1901) / 100 + (year - 1601) / 400
  }

  function YearLength(year: int): int {
    if IsLeap(year) then 366 else 365
  }

  lemma YearStep(year: int)
    ensures YearStart(year + 1) == YearStart(year) + YearLength(year)
  {
    Carry(year - 1969, 4);
    Carry(year - 1901, 100);
    Carry(year - 1601, 400);
    QuotientIs(year - 1968, 4, year / 4 - 492, year % 4);
    QuotientIs(year - 1900, 100, year / 100 - 19, year % 100);
    QuotientIs(year - 1600, 400, year / 400 - 4, year % 400);
    NestedMultiples(year);
  }

  lemma NestedMultiples(year: int)
    ensures year % 400 == 0 ==> year % 100 == 0
    ensures year % 100 == 0 ==> year % 4 == 0
  {
    if year % 400 == 0 {
      QuotientIs(year, 100, 4 * (year / 400), 0);
    }
    if year % 100 == 0 {
      QuotientIs(year, 4, 25 * (year / 100), 0);
    }
  }

  lemma Carry(a: int, m: int)
    requires m > 0
    ensures (a + 1) / m == a / m + if (a + 1) % m == 0 then 1 else 0
  {
    var q, r := a / m, a % m;
    assert a == q * m + r;
    if r + 1 == m {
      assert a + 1 == (q + 1) * m;
      QuotientIs(a + 1, m, q + 1, 0);
    } else {
      QuotientIs(a + 1, m, q, r + 1);
    }
  }

  lemma QuotientIs(a: int, m: int, q: int, r: int)
    requires m > 0 && a == q * m + r && 0 <= r < m
    ensures a / m == q && a % m == r
  {
    var k := a / m - q;
    assert m * (a / m) + a % m == a;
    assert k * m == r - a % m by {
      assert (a / m - q) * m == (a / m) * m - q * m;
    }
    if k >= 1 {
      AtLeast(k, m);
    } else if k <= -1 {
      AtLeast(-k, m);
    }
  }

  lemma AtLeast(k: int, m: int)
    requires k >= 1 && m > 0
    ensures k * m >= m
  {
    assert (k - 1) * m >= 0;
    assert k * m == (k - 1) * m + m;
  }

  lemma {:induction false} YearsGrow(a: int, b: int)
    requires a < b
    ensures YearStart(a) + 365 <= YearStart(a + 1) <= YearStart(b)
    decreases b - a
  {
    YearStep(a);
    if a + 1 == b {
    } else {
      YearsGrow(a + 1, b);
    }
  }

  /** Days before a month, counted from the start of its year. */
  function MonthStart(year: int, month: int): int
    requires 1 <= month <= 13
  {
    if month == 1 then 0 else MonthStart(year, month - 1) + DaysInMonth(year, month - 1)
  }

  lemma MonthTable(year: int)
    ensures var l := if IsLeap(year) then 1 else 0;
      && MonthStart(year, 1) == 0 && MonthStart(year, 2) == 31 && MonthStart(year, 3) == 59 + l
      && MonthStart(year, 4) == 90 + l && MonthStart(year, 5) == 120 + l && MonthStart(year, 6) == 151 + l
      && MonthStart(year, 7) == 181 + l && MonthStart(year, 8) == 212 + l && MonthStart(year, 9) == 243 + l
      && MonthStart(year, 10) == 273 + l && MonthStart(year, 11) == 304 + l && MonthStart(year, 12) == 334 + l
      && MonthStart(year, 13) == YearLength(year)
  {
    assert MonthStart(year, 5) == MonthStart(year, 4) + 30;
    assert MonthStart(year, 9) == MonthStart(year, 8) + 31;
  }

  lemma {:induction false} MonthsGrow(year: int, a: int, b: int)
    requires 1 <= a < b <= 13
    ensures MonthStart(year, a) + DaysInMonth(year, a) <= MonthStart(year, b)
    decreases b - a
  {
    if a + 1 == b {
    } else {
      MonthsGrow(year, a + 1, b);
    }
  }

  /** The number of a day; a day beyond the end of its month runs over into the next one. */
  function DayNumber(c: Civil): int
    requires 1 <= c.month <= 12
  {
    YearStart(c.year) + MonthStart(c.year, c.month) + c.day - 1
  }

  /** The year of day n, walking from `guess`. */
  function YearFrom(n: int, guess: int): (year: int)
    ensures YearStart(year) <= n < YearStart(year + 1)
    decreases if n < YearStart(guess) then YearStart(guess) - n
              else if n >= YearStart(guess + 1) then n - YearStart(guess + 1) + 1 else 0
  {
    hide YearStart, IsLeap;
    YearStep(guess);
    YearStep(guess - 1);
    YearStep(guess + 1);
    if n < YearStart(guess) then YearFrom(n, guess - 1)
    else if n >= YearStart(guess + 1) then YearFrom(n, guess + 1)
    else guess
  }

  /** The month that holds a day of the year, looking from `month` on. */
  function MonthFrom(year: int, dayOfYear: int, month: int): (m: int)
    requires 1 <= month <= 12 && MonthStart(year, month) <= dayOfYear < MonthStart(year, 13)
    ensures 1 <= m <= 12 && MonthStart(year, m) <= dayOfYear < MonthStart(year, m + 1)
    decreases 12 - month
  {
    if dayOfYear < MonthStart(year, month + 1) then month else MonthFrom(year, dayOfYear, month + 1)
  }

  lemma DayOfMonth(year: int, month: int, dayOfYear: int)
    requires 1 <= month <= 12 && MonthStart(year, month) <= dayOfYear < MonthStart(year, month + 1)
    ensures var c := Civil(year, month, dayOfYear - MonthStart(year, month) + 1);
      ValidCivil(c) && DayNumber(c) == YearStart(year) + dayOfYear
  {
    hide YearStart;
  }

  function CivilFromDay(n: int): (c: Civil)
    ensures ValidCivil(c) && DayNumber(c) == n
  {
    hide YearStart, MonthStart, IsLeap, YearFrom, MonthFrom, DayNumber, ValidCivil;
    var year := YearFrom(n, n / 365 + 1970);
    var dayOfYear := n - YearStart(year);
    YearStep(year);
    MonthTable(year);
    var month := MonthFrom(year, dayOfYear, 1);
    DayOfMonth(year, month, dayOfYear);
    Civil(year, month, dayOfYear - MonthStart(year, month) + 1)
  }

  predicate Before(a: Civil, b: Civil) {
    a.year < b.year || (a.year == b.year && (a.month < b.month || (a.month == b.month && a.day < b.day)))
  }

  lemma EarlierDay(a: Civil, b: Civil)
    requires ValidCivil(a) && ValidCivil(b) && Before(a, b)
    ensures DayNumber(a) < DayNumber(b)
  {
    if a.year < b.year {
      YearsGrow(a.year, b.year);
      YearStep(a.year);
      MonthTable(a.year);
      if a.month < 13 { MonthsGrow(a.year, a.month, 13); }
      if b.month > 1 { MonthsGrow(b.year, 1, b.month); }
    } else if a.month < b.month {
      MonthsGrow(a.year, a.month, b.month);
    }
  }

  /** Calendar order is day-number order, so each day number belongs to one date only. */
  lemma DayOrder(a: Civil, b: Civil)
    requires ValidCivil(a) && ValidCivil(b)
    ensures Before(a, b) <==> DayNumber(a) < DayNumber(b)
    ensures DayNumber(a) == DayNumber(b) ==> a == b
  {
    if Before(a, b) {
      EarlierDay(a, b);
    } else if Before(b, a) {
      EarlierDay(b, a);
    }
  }

  lemma CivilRoundTrip(c: Civil)
    requires ValidCivil(c)
    ensures CivilFromDay(DayNumber(c)) == c
  {
    DayOrder(CivilFromDay(DayNumber(c)), c);
  }

  /** A calendar date and a time of day. */
  datatype DateTime = DateTime(year: int, month: int, day: int, hour: int, minute: int, second: int, millisecond: int)
  {
    function Date(): Civil { Civil(year, month, day) }

    function TimeOfDay(): int { hour * MS_PER_HOUR + minute * 60_000 + second * 1_000 + millisecond }
  }

  predicate ValidDateTime(p: DateTime) {
    && ValidCivil(p.Date())
    && 0 <= p.hour < 24 && 0 <= p.minute < 60 && 0 <= p.second < 60 && 0 <= p.millisecond < 1_000
  }

  /** Milliseconds since 1970-01-01T00:00Z of the date and time read as UTC. */
  function UtcMillis(p: DateTime): int
    requires 1 <= p.month <= 12
  {
    DayNumber(p.Date()) * MS_PER_DAY + p.TimeOfDay()
  }

  /** The UTC date and time of a number of milliseconds. */
  function DateTimeOf(ms: int): (p: DateTime)
    ensures ValidDateTime(p) && UtcMillis(p) == ms
    ensures p.millisecond == ms % 1_000
  {
    var c, inDay := CivilFromDay(ms / MS_PER_DAY), ms % MS_PER_DAY;
    var inHour := inDay % MS_PER_HOUR;
    var inMinute := inHour % 60_000;
    var p := DateTime(c.year, c.month, c.day,
                      inDay / MS_PER_HOUR, inHour / 60_000, inMinute / 1_000, inMinute % 1_000);
    assert p.Date() == c;
    assert p.TimeOfDay() == inDay;
    QuotientIs(ms, 1_000,
               86_400 * (ms / MS_PER_DAY) + 3_600 * p.hour + 60 * p.minute + p.second, p.millisecond);
    p
  }

  lemma TimeInDay(p: DateTime)
    requires ValidDateTime(p)
    ensures 0 <= p.TimeOfDay() < MS_PER_DAY
    ensures UtcMillis(p) / MS_PER_DAY == DayNumber(p.Date())
  {
    QuotientIs(UtcMillis(p), MS_PER_DAY, DayNumber(p.Date()), p.TimeOfDay());
  }

  /** A number of milliseconds is shown by exactly one valid date and time. */
  lemma UtcMillisInjective(p: DateTime, q: DateTime)
    requires ValidDateTime(p) && ValidDateTime(q) && UtcMillis(p) == UtcMillis(q)
    ensures p == q
  {
    TimeInDay(p);
    TimeInDay(q);
    DayOrder(p.Date(), q.Date());
  }

  lemma DateTimeRoundTrip(p: DateTime)
    requires ValidDateTime(p)
    ensures DateTimeOf(UtcMillis(p)) == p
  {
    UtcMillisInjective(DateTimeOf(UtcMillis(p)), p);
  }

  lemma YearsFollow(s: int, t: int)
    requires s <= t
    ensures DateTimeOf(s).year <= DateTimeOf(t).year
  {
    var p, q := DateTimeOf(s), DateTimeOf(t);
    TimeInDay(p);
    TimeInDay(q);
    DayOrder(q.Date(), p.Date());
    assert s / MS_PER_DAY <= t / MS_PER_DAY;
  }

  /** Day 0 is 1970-01-01. */
  lemma DayZero(epoch: Civil)
    requires epoch == Civil(1970, 1, 1)
    ensures DayNumber(epoch) == 0 && CivilFromDay(DayNumber(epoch)) == epoch
  {
    hide CivilFromDay;
    MonthTable(epoch.year);
    CivilRoundTrip(epoch);
  }

  /** The leap years are the Gregorian ones. */
  lemma LeapYears(year: int)
    ensures year % 400 == 0 ==> IsLeap(year)
    ensures year % 100 == 0 && year % 400 != 0 ==> !IsLeap(year)
    ensures year % 4 == 0 && year % 100 != 0 ==> IsLeap(year)
    ensures year % 4 != 0 ==> !IsLeap(year)
  {
    NestedMultiples(year);
  }

  /** The calendar repeats every 400 years. */
  lemma FourHundredYears(year: int)
    ensures YearStart(year + 400) == YearStart(year) + 146_097
  {
    var a, b, c := year - 1969, year - 1901, year - 1601;
    QuotientIs(a + 400, 4, a / 4 + 100, a % 4);
    QuotientIs(b + 400, 100, b / 100 + 4, b % 100);
    QuotientIs(c + 400, 400, c / 400 + 1, c % 400);
  }
}
