/** Dates written YYYY-MM-DD, and the order of such texts. */
module CivilText {
  import opened Wrappers
  import opened CivilCalendar

  predicate IsDigit(c: char) { '0' <= c <= '9' }

  function DigitValue(c: char): int
    requires IsDigit(c)
  {
    c as int - '0' as int
  }

  function DigitOf(n: int): (c: char)
    requires 0 <= n < 10
    ensures IsDigit(c) && DigitValue(c) == n
  {
    ('0' as int + n) as char
  }

  predicate AllDigits(s: string) {
    forall k :: 0 <= k < |s| ==> IsDigit(s[k])
  }

  /** Number(s) for a text of digits. */
  function NumberOf(s: string): (n: nat)
    requires AllDigits(s)
  {
    if s == "" then 0 else 10 * NumberOf(s[..|s| - 1]) + DigitValue(s[|s| - 1])
  }

  /** String(n) for n >= 0. */
  function Decimal(n: nat): (s: string)
    ensures |s| > 0
  {
    if n < 10 then [DigitOf(n)] else Decimal(n / 10) + [DigitOf(n % 10)]
  }

  function PadStart(s: string, width: nat): string
    decreases width - |s|
  {
    if |s| >= width then s else PadStart("0" + s, width)
  }

  /** Digits of n, most significant first. */
  function Digits(n: nat, width: nat): (s: string)
    ensures |s| == width && AllDigits(s)
  {
    if width == 0 then "" else Digits(n / 10, width - 1) + [DigitOf(n % 10)]
  }

  function Pow10(k: nat): nat {
    if k == 0 then 1 else 10 * Pow10(k - 1)
  }

  lemma {:induction false} DigitsNumber(n: nat, width: nat)
    requires n < Pow10(width)
    ensures NumberOf(Digits(n, width)) == n
  {
    if width == 0 {
    } else {
      DigitsNumber(n / 10, width - 1);
      assert Digits(n, width)[..width - 1] == Digits(n / 10, width - 1);
    }
  }

  lemma {:induction false} NumberDigits(s: string)
    requires AllDigits(s)
    ensures Digits(NumberOf(s), |s|) == s && NumberOf(s) < Pow10(|s|)
  {
    if s == "" {
    } else {
      var init, v := s[..|s| - 1], DigitValue(s[|s| - 1]);
      NumberDigits(init);
      assert s == init + [DigitOf(v)];
      QuotientIs(NumberOf(s), 10, NumberOf(init), v);
      LastDigit(NumberOf(s), |s|);
      hide Digits, NumberOf;
      assert Pow10(|s|) == 10 * Pow10(|s| - 1);
    }
  }

  lemma LastDigit(n: nat, width: nat)
    requires width > 0
    ensures Digits(n, width) == Digits(n / 10, width - 1) + [DigitOf(n % 10)]
  {
  }

  lemma {:induction false} PadZeros(s: string, t: string, width: nat)
    requires |s| <= width && |t| == width && t[width - |s|..] == s
    requires forall k :: 0 <= k < width - |s| ==> t[k] == '0'
    ensures PadStart(s, width) == t
    decreases width - |s|
  {
    if |s| >= width {
    } else {
      assert t[width - |s| - 1..] == "0" + s;
      PadZeros("0" + s, t, width);
    }
  }

  lemma {:induction false} DecimalIsSuffix(n: nat, width: nat)
    requires n < Pow10(width) && width > 0
    ensures |Decimal(n)| <= width
    ensures Digits(n, width)[width - |Decimal(n)|..] == Decimal(n)
    ensures forall k :: 0 <= k < width - |Decimal(n)| ==> Digits(n, width)[k] == '0'
  {
    if n < 10 {
      ZeroDigits(width - 1);
      assert n / 10 == 0;
    } else {
      assert Pow10(width) == 10 * Pow10(width - 1);
      assert Pow10(1) == 10;
      DecimalIsSuffix(n / 10, width - 1);
    }
  }

  lemma {:induction false} ZeroDigits(width: nat)
    ensures forall k :: 0 <= k < width ==> Digits(0, width)[k] == '0'
  {
    if width == 0 {
    } else {
      ZeroDigits(width - 1);
    }
  }

  /** String(n).padStart(width, "0"). */
  function Pad(n: int, width: nat): string {
    PadStart(if n < 0 then "-" + Decimal(-n) else Decimal(n), width)
  }

  lemma PadIsDigits(n: nat, width: nat)
    requires n < Pow10(width) && width > 0
    ensures Pad(n, width) == Digits(n, width)
  {
    DecimalIsSuffix(n, width);
    PadZeros(Decimal(n), Digits(n, width), width);
  }

  /** The `<` of strings: by the first character that differs. */
  predicate TextLess(a: string, b: string) {
    if b == "" then false
    else if a == "" then true
    else if a[0] != b[0] then a[0] < b[0]
    else TextLess(a[1..], b[1..])
  }

  lemma {:induction false} LessConcat(a: string, b: string, c: string, d: string)
    requires |a| == |b|
    ensures TextLess(a + c, b + d) <==> TextLess(a, b) || (a == b && TextLess(c, d))
  {
    if a == "" {
      assert a + c == c && b + d == d;
    } else {
      assert (a + c)[1..] == a[1..] + c && (b + d)[1..] == b[1..] + d;
      assert a == [a[0]] + a[1..] && b == [b[0]] + b[1..];
      LessConcat(a[1..], b[1..], c, d);
    }
  }

  lemma {:induction false} DigitsOrder(a: string, b: string)
    requires |a| == |b| && AllDigits(a) && AllDigits(b)
    ensures TextLess(a, b) <==> NumberOf(a) < NumberOf(b)
    ensures NumberOf(a) == NumberOf(b) <==> a == b
  {
    if a == "" {
    } else {
      var n := |a| - 1;
      assert a == a[..n] + [a[n]] && b == b[..n] + [b[n]];
      LessConcat(a[..n], b[..n], [a[n]], [b[n]]);
      DigitsOrder(a[..n], b[..n]);
    }
  }

  /** A date as the terms write it. */
  function Format(c: Civil): string {
    Pad(c.year, 4) + "-" + Pad(c.month, 2) + "-" + Pad(c.day, 2)
  }

  predicate InCalendar(c: Civil) {
    ValidCivil(c) && 1 <= c.year <= 9_999
  }

  predicate HasDateShape(s: string) {
    && |s| == 10 && s[4] == '-' && s[7] == '-'
    && AllDigits(s[..4]) && AllDigits(s[5..7]) && AllDigits(s[8..])
  }

  /** The date a text stands for, or None when it is not a date of the years 1 to 9999. */
  function Parse(s: string): Option<Civil> {
    if !HasDateShape(s) then None
    else
      var c := Civil(NumberOf(s[..4]), NumberOf(s[5..7]), NumberOf(s[8..]));
      if c.year < 1 || c.month < 1 || c.month > 12 || c.day < 1 || c.day > DaysInMonth(c.year, c.month) then None
      else Some(c)
  }

  lemma PowTable()
    ensures Pow10(2) == 100 && Pow10(4) == 10_000
  {
    assert Pow10(3) == 1_000;
  }

  lemma FormatParts(c: Civil)
    requires InCalendar(c)
    ensures Format(c) == Digits(c.year, 4) + "-" + Digits(c.month, 2) + "-" + Digits(c.day, 2)
    ensures |Format(c)| == 10
    ensures Format(c)[..4] == Digits(c.year, 4) && Format(c)[5..7] == Digits(c.month, 2)
    ensures Format(c)[8..] == Digits(c.day, 2) && Format(c)[4] == '-' && Format(c)[7] == '-'
  {
    hide Pad, Digits, Pow10, AllDigits;
    PowTable();
    MonthsAreShort(c);
    PadIsDigits(c.year, 4);
    PadIsDigits(c.month, 2);
    PadIsDigits(c.day, 2);
    FieldsOf(Digits(c.year, 4), Digits(c.month, 2), Digits(c.day, 2));
  }

  lemma MonthsAreShort(c: Civil)
    requires InCalendar(c)
    ensures 0 <= c.year < 10_000 && 0 <= c.month < 100 && 0 <= c.day < 100
  {
  }

  lemma FieldsOf(y: string, m: string, d: string)
    requires |y| == 4 && |m| == 2 && |d| == 2
    ensures var s := y + "-" + m + "-" + d;
      |s| == 10 && s[..4] == y && s[5..7] == m && s[8..] == d && s[4] == '-' && s[7] == '-'
  {
  }

  /** Writing a date and reading it back gives the date. */
  lemma ParseFormat(c: Civil)
    requires InCalendar(c)
    ensures Parse(Format(c)) == Some(c)
  {
    PowTable();
    FormatParts(c);
    DigitsNumber(c.year, 4);
    DigitsNumber(c.month, 2);
    DigitsNumber(c.day, 2);
  }

  /** A text that reads as a date is the way that date is written. */
  lemma FormatParse(s: string)
    requires Parse(s).Some?
    ensures InCalendar(Parse(s).value) && Format(Parse(s).value) == s
  {
    hide NumberOf, Digits, Pad, Pow10;
    PowTable();
    NumberDigits(s[..4]);
    NumberDigits(s[5..7]);
    NumberDigits(s[8..]);
    FormatParts(Parse(s).value);
    assert s == s[..4] + "-" + s[5..7] + "-" + s[8..];
  }

  /** Comparing field by field. */
  lemma FieldsOrder(ya: string, ma: string, da: string, yb: string, mb: string, db: string)
    requires |ya| == |yb| && |ma| == |mb|
    ensures TextLess(ya + "-" + ma + "-" + da, yb + "-" + mb + "-" + db)
      <==> TextLess(ya, yb) || (ya == yb && (TextLess(ma, mb) || (ma == mb && TextLess(da, db))))
  {
    hide TextLess;
    LessConcat(ya + "-" + ma + "-", yb + "-" + mb + "-", da, db);
    LessConcat(ya + "-" + ma, yb + "-" + mb, "-", "-");
    LessConcat(ya + "-", yb + "-", ma, mb);
    LessConcat(ya, yb, "-", "-");
    LessIrreflexive("-");
    var (pa, pb) := (ya + "-" + ma + "-", yb + "-" + mb + "-");
    if pa == pb {
      assert pa[..|ya|] == ya && pb[..|ya|] == yb;
      assert pa[|ya| + 1..|pa| - 1] == ma && pb[|ya| + 1..|pa| - 1] == mb;
    }
    assert (ya + "-" == yb + "-") ==> ya == yb by {
      assert (ya + "-")[..|ya|] == ya && (yb + "-")[..|ya|] == yb;
    }
  }

  lemma LessIrreflexive(s: string)
    requires |s| == 1
    ensures !TextLess(s, s)
  {
  }

  /** The order of the texts is the order of the calendar. */
  lemma TextOrder(a: Civil, b: Civil)
    requires InCalendar(a) && InCalendar(b)
    ensures TextLess(Format(a), Format(b)) <==> Before(a, b)
  {
    hide TextLess, Format, Digits, NumberOf;
    PowTable();
    FormatParts(a);
    FormatParts(b);
    FieldsOrder(Digits(a.year, 4), Digits(a.month, 2), Digits(a.day, 2),
                Digits(b.year, 4), Digits(b.month, 2), Digits(b.day, 2));
    FieldOrder(a.year, b.year, 4);
    FieldOrder(a.month, b.month, 2);
    FieldOrder(a.day, b.day, 2);
  }

  lemma FieldOrder(m: nat, n: nat, width: nat)
    requires m < Pow10(width) && n < Pow10(width)
    ensures TextLess(Digits(m, width), Digits(n, width)) <==> m < n
    ensures Digits(m, width) == Digits(n, width) <==> m == n
  {
    DigitsNumber(m, width);
    DigitsNumber(n, width);
    DigitsOrder(Digits(m, width), Digits(n, width));
  }
}
