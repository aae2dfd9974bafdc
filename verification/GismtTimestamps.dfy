/** The time stamps that an aggregation document takes. */
module GismtTimestamps {
  import opened CivilCalendar
  import opened CivilText
  import opened Gismt

  /** A moment that a Date can hold. */
  predicate IsMoment(p: DateTime) {
    ValidDateTime(p) && -8_640_000_000_000_000 <= UtcMillis(p) <= 8_640_000_000_000_000
  }

  /** The text of a moment: YYYY-MM-DDTHH:MM:SS.mmmZ, with a sign and six digits for years beyond 0 to 9999. */
  function IsoText(p: DateTime): string
    requires IsMoment(p)
  {
    (if 0 <= p.year <= 9_999 then Digits(p.year, 4)
     else if p.year < 0 then "-" + Digits(-p.year, 6) else "+" + Digits(p.year, 6)) + AfterYear(p)
  }

  function AfterYear(p: DateTime): string
    requires IsMoment(p)
  {
    "-" + Digits(p.month, 2) + "-" + Digits(p.day, 2)
    + "T" + Digits(p.hour, 2) + ":" + Digits(p.minute, 2) + ":" + Digits(p.second, 2)
    + "." + Digits(p.millisecond, 3) + "Z"
  }

  lemma AfterYearFields(mo: string, d: string, h: string, mi: string, se: string, ms: string)
    requires |mo| == |d| == |h| == |mi| == |se| == 2 && |ms| == 3
    ensures var s := "-" + mo + "-" + d + "T" + h + ":" + mi + ":" + se + "." + ms + "Z";
      && |s| == 20 && s[1..3] == mo && s[4..6] == d && s[7..9] == h && s[10..12] == mi && s[13..15] == se
      && s[16..19] == ms && s[0] == '-' && s[3] == '-' && s[6] == 'T' && s[9] == ':' && s[12] == ':' && s[15] == '.'
      && s[19] == 'Z'
  {
  }

  lemma TenPowers()
    ensures Pow10(2) == 100 && Pow10(3) == 1_000 && Pow10(4) == 10_000 && Pow10(6) == 1_000_000
  {
    assert Pow10(3) == 1_000;
    assert Pow10(5) == 100_000;
  }

  lemma AfterYearReads(p: DateTime)
    requires IsMoment(p)
    ensures IsTimestampTail(p.year, AfterYear(p))
  {
    hide Digits, NumberOf, Pow10, AllDigits, UtcMillis;
    TenPowers();
    AfterYearFields(Digits(p.month, 2), Digits(p.day, 2), Digits(p.hour, 2), Digits(p.minute, 2), Digits(p.second, 2),
                    Digits(p.millisecond, 3));
    DigitsNumber(p.month, 2);
    DigitsNumber(p.day, 2);
    DigitsNumber(p.hour, 2);
    DigitsNumber(p.minute, 2);
    DigitsNumber(p.second, 2);
    DigitsNumber(p.millisecond, 3);
  }

  lemma AfterYearWritten(year: int, s: string) returns (p: DateTime)
    requires IsTimestampTail(year, s)
    ensures IsMoment(p) && p.year == year && s == AfterYear(p)
  {
    hide Digits, NumberOf, Pow10, AllDigits, UtcMillis;
    NumberDigits(s[1..3]);
    NumberDigits(s[4..6]);
    NumberDigits(s[7..9]);
    NumberDigits(s[10..12]);
    NumberDigits(s[13..15]);
    NumberDigits(s[16..19]);
    p := DateTime(year, NumberOf(s[1..3]), NumberOf(s[4..6]), NumberOf(s[7..9]), NumberOf(s[10..12]),
                  NumberOf(s[13..15]), NumberOf(s[16..19]));
    AfterYearFields(s[1..3], s[4..6], s[7..9], s[10..12], s[13..15], s[16..19]);
    assert s == AfterYear(p);
  }

  lemma DayInYear(c: Civil)
    requires ValidCivil(c)
    ensures YearStart(c.year) <= DayNumber(c) < YearStart(c.year + 1)
  {
    hide YearStart, MonthStart;
    YearStep(c.year);
    MonthTable(c.year);
  }

  lemma FarYears()
    ensures YearStart(1_000_000) > 200_000_000 && YearStart(-999_999) < -200_000_000
  {
  }

  lemma YearOfMoment(p: DateTime)
    requires IsMoment(p)
    ensures -1_000_000 < p.year < 1_000_000
  {
    hide YearStart, MonthStart, DayNumber, UtcMillis;
    DayOfMoment(p);
    DayInYear(p.Date());
    FarYears();
    if p.year > 1_000_000 {
      YearsGrow(1_000_000, p.year);
    } else if p.year + 1 < -999_999 {
      YearsGrow(p.year + 1, -999_999);
    }
  }

  lemma DayOfMoment(p: DateTime)
    requires IsMoment(p)
    ensures -200_000_000 <= DayNumber(p.Date()) <= 200_000_000
  {
    hide DayNumber;
    TimeInDay(p);
  }

  lemma IsoReads(p: DateTime)
    requires IsMoment(p)
    ensures IsCanonicalTimestamp(IsoText(p))
  {
    hide Digits, NumberOf, Pow10, AllDigits, IsTimestampTail, AfterYear, IsMoment;
    TenPowers();
    YearOfMoment(p);
    AfterYearReads(p);
    AfterYearLength(p);
    var s := IsoText(p);
    if 0 <= p.year <= 9_999 {
      DigitsNumber(p.year, 4);
      assert s[..4] == Digits(p.year, 4) && s[4..] == AfterYear(p);
    } else {
      var n: nat := if p.year < 0 then -p.year else p.year;
      DigitsNumber(n, 6);
      assert s[1..7] == Digits(n, 6) && s[7..] == AfterYear(p);
    }
  }

  lemma AfterYearLength(p: DateTime)
    requires IsMoment(p)
    ensures |AfterYear(p)| == 20
  {
    hide Digits;
  }

  lemma IsoWritten(s: string) returns (p: DateTime)
    requires IsCanonicalTimestamp(s)
    ensures IsMoment(p) && s == IsoText(p)
  {
    hide Digits, NumberOf, Pow10, AllDigits, IsTimestampTail, AfterYear, IsMoment;
    TenPowers();
    if |s| == 24 {
      NumberDigits(s[..4]);
      p := AfterYearWritten(NumberOf(s[..4]), s[4..]);
      assert s == s[..4] + s[4..];
    } else {
      var n := NumberOf(s[1..7]);
      NumberDigits(s[1..7]);
      p := AfterYearWritten(if s[0] == '+' then n else 0 - (n as int), s[7..]);
      assert s == [s[0]] + s[1..7] + s[7..];
    }
  }

  ghost predicate IsIsoText(s: string) { exists p :: IsMoment(p) && s == IsoText(p) }

  /** The texts accepted as time stamps are exactly those that a Date gives. */
  lemma TimestampIff(s: string)
    ensures IsCanonicalTimestamp(s) <==> IsIsoText(s)
  {
    hide IsCanonicalTimestamp, IsoText, IsMoment;
    if IsCanonicalTimestamp(s) {
      var p := IsoWritten(s);
    }
    if p :| IsMoment(p) && s == IsoText(p) {
      IsoReads(p);
    }
  }
}
