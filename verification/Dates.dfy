/** Expense dates: instants printed and read in the `full-date` form of section
    5.6 of RFC 3339. An instant counts nanoseconds in UTC from the first moment
    of the year 0000, the earliest this form can name. */
module Dates {
  import opened Wrappers
  import opened Numerals
  import Text

  type Instant = nat

  const DAY: nat := 86_400_000_000_000

  datatype Civil = Civil(year: nat, month: nat, day: nat)

  predicate Leap(year: nat) {
    year % 4 == 0 && (year % 100 != 0 || year % 400 == 0)
  }

  function DaysInMonth(year: nat, month: nat): nat {
    if month == 2 then (if Leap(year) then 29 else 28)
    else if month in {4, 6, 9, 11} then 30
    else 31
  }

  function DaysBeforeMonth(year: nat, month: nat): nat {
    if month <= 1 then 0 else DaysBeforeMonth(year, month - 1) + DaysInMonth(year, month - 1)
  }

  function DaysInYear(year: nat): (n: nat)
    ensures n > 0
  {
    DaysBeforeMonth(year, 13)
  }

  function DaysBefore(year: nat): nat {
    if year == 0 then 0 else DaysBefore(year - 1) + DaysInYear(year - 1)
  }

  predicate ValidCivil(c: Civil) {
    1 <= c.month <= 12 && 1 <= c.day <= DaysInMonth(c.year, c.month)
  }

  /** The number of days before a date. */
  function DayNumber(c: Civil): nat
    requires ValidCivil(c)
  {
    DaysBefore(c.year) + DaysBeforeMonth(c.year, c.month) + (c.day - 1)
  }

  function MidnightOf(c: Civil): Instant
    requires ValidCivil(c)
  {
    DayNumber(c) * DAY
  }

  /** The date `n` days into a year, counted from the first of a month. */
  function InYear(n: nat, year: nat, month: nat): (c: Civil)
    requires 1 <= month <= 12 && DaysBeforeMonth(year, month) + n < DaysInYear(year)
    ensures ValidCivil(c) && c.year == year
    ensures DayNumber(c) == DaysBefore(year) + DaysBeforeMonth(year, month) + n
    decreases 13 - month
  {
    if n < DaysInMonth(year, month) then Civil(year, month, n + 1)
    else InYear(n - DaysInMonth(year, month), year, month + 1)
  }

  /** The date `n` days after the start of a year. */
  function FromYear(n: nat, year: nat): (c: Civil)
    ensures ValidCivil(c) && DayNumber(c) == DaysBefore(year) + n
  {
    if n < DaysInYear(year) then InYear(n, year, 1)
    else FromYear(n - DaysInYear(year), year + 1)
  }

  lemma {:induction false} MonthsGrow(year: nat, a: nat, b: nat)
    requires 1 <= a < b <= 12
    ensures DaysBeforeMonth(year, a) + DaysInMonth(year, a) <= DaysBeforeMonth(year, b)
  {
    if a + 1 < b {
      MonthsGrow(year, a, b - 1);
    }
  }

  lemma {:induction false} YearsGrow(a: nat, b: nat)
    requires a < b
    ensures DaysBefore(a) + DaysInYear(a) <= DaysBefore(b)
  {
    if a + 1 < b {
      YearsGrow(a, b - 1);
    }
  }

  lemma {:induction false} WithinYear(c: Civil)
    requires ValidCivil(c)
    ensures DaysBeforeMonth(c.year, c.month) + (c.day - 1) < DaysInYear(c.year)
  {
    if c.month < 12 {
      MonthsGrow(c.year, c.month, 12);
    }
  }

  lemma {:induction false} EarlierYear(c: Civil, d: Civil)
    requires ValidCivil(c) && ValidCivil(d) && c.year < d.year
    ensures DayNumber(c) < DayNumber(d)
  {
    WithinYear(c);
    YearsGrow(c.year, d.year);
  }

  lemma {:induction false} EarlierMonth(c: Civil, d: Civil)
    requires ValidCivil(c) && ValidCivil(d) && c.year == d.year && c.month < d.month
    ensures DayNumber(c) < DayNumber(d)
  {
    MonthsGrow(c.year, c.month, d.month);
  }

  /** A date is named by its day number. */
  lemma {:induction false} OneDatePerDay(c: Civil, d: Civil)
    requires ValidCivil(c) && ValidCivil(d) && DayNumber(c) == DayNumber(d)
    ensures c == d
  {
    if c.year < d.year {
      EarlierYear(c, d);
    } else if d.year < c.year {
      EarlierYear(d, c);
    } else if c.month < d.month {
      EarlierMonth(c, d);
    } else if d.month < c.month {
      EarlierMonth(d, c);
    }
  }

  /** The calendar date of an instant: the only date with that day number. */
  function DateOf(t: Instant): (c: Civil)
    ensures ValidCivil(c) && DayNumber(c) == t / DAY
  {
    FromYear(t / DAY, 0)
  }

  predicate Midnight(t: Instant) {
    t % DAY == 0
  }

  function StartOfDay(t: Instant): Instant {
    t - t % DAY
  }

  function DateText(c: Civil): string {
    Padded(c.year, 4) + "-" + (Padded(c.month, 2) + "-" + Padded(c.day, 2))
  }

  /** `t.Format(time.DateOnly)` */
  function FormatDate(t: Instant): string {
    DateText(DateOf(t))
  }

  /** `time.Parse(time.DateOnly, text)` */
  function ParseDate(text: string): Option<Instant> {
    if |text| != 10 || text[4] != '-' || text[7] != '-' then None
    else ParseFields(text[..4], text[5..7], text[8..])
  }

  function ParseFields(y: string, m: string, d: string): Option<Instant> {
    if !AllDigits(y) || !AllDigits(m) || !AllDigits(d) then None else
    var c := Civil(ValueOf(y), ValueOf(m), ValueOf(d));
    if ValidCivil(c) then Some(MidnightOf(c)) else None
  }

  lemma {:induction false} DateParts(y: string, m: string, d: string, text: string)
    requires text == y + "-" + (m + "-" + d)
    requires |y| == 4 && |m| == 2 && |d| == 2
    ensures |text| == 10 && text[4] == '-' && text[7] == '-'
    ensures text[..4] == y && text[5..7] == m && text[8..] == d
  {
    assert text[4] == '-' && text[5..] == m + "-" + d;
    assert text[5..7] == text[5..][..2] && text[8..] == text[5..][3..];
  }

  lemma {:induction false} TwoDigits(n: nat)
    requires n < 100
    ensures |Padded(n, 2)| == 2
  {
    PaddedLength(n, 2);
    assert Pow10(2) == 10 * Pow10(1) && Pow10(1) == 10 * Pow10(0);
  }

  lemma {:induction false} FourDigits(n: nat)
    ensures |Padded(n, 4)| == 4 <==> n < 10000
  {
    PaddedLength(n, 4);
    assert Pow10(2) == 10 * Pow10(1) && Pow10(1) == 10 * Pow10(0);
    assert Pow10(4) == 10 * Pow10(3) && Pow10(3) == 10 * Pow10(2);
  }

  lemma {:induction false} DateTextParses(c: Civil)
    requires ValidCivil(c) && c.year < 10000
    ensures ParseDate(DateText(c)) == Some(MidnightOf(c))
  {
    var y, m, d := Padded(c.year, 4), Padded(c.month, 2), Padded(c.day, 2);
    FourDigits(c.year);
    TwoDigits(c.month);
    TwoDigits(c.day);
    DateParts(y, m, d, DateText(c));
    ValueOfPadded(c.year, 4);
    ValueOfPadded(c.month, 2);
    ValueOfPadded(c.day, 2);
  }

  lemma {:induction false} DateTextBare(c: Civil)
    ensures DateText(c) != "" && Text.Bare(Text.White, DateText(c))
  {
    var y, d, text := Padded(c.year, 4), Padded(c.day, 2), DateText(c);
    assert text[0] == y[0] && IsDigit(y[0]);
    assert text[|text| - 1] == d[|d| - 1] && IsDigit(d[|d| - 1]);
    Text.VisibleIsNotSpace(text[0]);
    Text.VisibleIsNotSpace(text[|text| - 1]);
  }

  lemma {:induction false} LongYear(c: Civil)
    requires c.year >= 10000
    ensures ParseDate(DateText(c)) == None
  {
    FourDigits(c.year);
  }

  lemma {:induction false} WholeDays(t: Instant)
    ensures (t / DAY) * DAY == StartOfDay(t)
  {
  }

  /** A printed instant reads back as the start of its day, and not at all from
      the year 10000 on, which the form cannot name. */
  lemma {:induction false} DateRoundTrip(t: Instant)
    ensures ParseDate(FormatDate(t))
         == if DateOf(t).year < 10000 then Some(StartOfDay(t)) else None
  {
    var c := DateOf(t);
    if c.year < 10000 {
      DateTextParses(c);
      WholeDays(t);
    } else {
      LongYear(c);
    }
  }

  lemma {:induction false} SplitDate(text: string) returns (y: string, m: string, d: string)
    requires |text| == 10 && text[4] == '-' && text[7] == '-'
    ensures y == text[..4] && m == text[5..7] && d == text[8..]
    ensures |y| == 4 && |m| == 2 && |d| == 2 && text == y + "-" + (m + "-" + d)
  {
    y, m, d := text[..4], text[5..7], text[8..];
    assert text == text[..4] + [text[4]] + (text[5..7] + [text[7]] + text[8..]);
  }

  /** Only the text of a date before the year 10000 is read, and as that date's first
      moment. */
  lemma {:induction false} DateIsRead(text: string) returns (c: Civil)
    requires ParseDate(text).Some?
    ensures ValidCivil(c) && c.year < 10000 && text == DateText(c) && ParseDate(text) == Some(MidnightOf(c))
  {
    var y, m, d := SplitDate(text);
    c := Civil(ValueOf(y), ValueOf(m), ValueOf(d));
    PaddedOfValue(y);
    PaddedOfValue(m);
    PaddedOfValue(d);
    FourDigits(c.year);
  }

  /** The first moment of a date is a midnight, and of no other date. */
  lemma {:induction false} MidnightIsOfDate(c: Civil)
    requires ValidCivil(c)
    ensures Midnight(MidnightOf(c)) && DateOf(MidnightOf(c)) == c
  {
    WholeDay(DayNumber(c));
    OneDatePerDay(DateOf(MidnightOf(c)), c);
  }

  lemma {:induction false} WholeDay(n: nat)
    ensures n * DAY % DAY == 0 && n * DAY / DAY == n
  {
  }

  lemma {:induction false} MonthsOfYear(y: nat)
    ensures DaysInYear(y) == if Leap(y) then 366 else 365
  {
    assert DaysBeforeMonth(y, 4) == DaysBeforeMonth(y, 3) + 31 == DaysBeforeMonth(y, 2) + DaysInMonth(y, 2) + 31;
    assert DaysBeforeMonth(y, 2) == DaysBeforeMonth(y, 1) + 31;
    assert DaysBeforeMonth(y, 7) == DaysBeforeMonth(y, 6) + 30 == DaysBeforeMonth(y, 5) + 61;
    assert DaysBeforeMonth(y, 5) == DaysBeforeMonth(y, 4) + 30;
    assert DaysBeforeMonth(y, 10) == DaysBeforeMonth(y, 9) + 30 == DaysBeforeMonth(y, 8) + 61;
    assert DaysBeforeMonth(y, 8) == DaysBeforeMonth(y, 7) + 31;
    assert DaysBeforeMonth(y, 13) == DaysBeforeMonth(y, 12) + 31 == DaysBeforeMonth(y, 11) + 61;
    assert DaysBeforeMonth(y, 11) == DaysBeforeMonth(y, 10) + 31;
  }

  /** A year has 365 days; one divisible by four, unless by 100 and not by 400, has
      366. */
  lemma {:induction false} YearLength(year: nat)
    ensures year % 4 != 0 ==> DaysInYear(year) == 365
    ensures year % 4 == 0 && year % 100 != 0 ==> DaysInYear(year) == 366
    ensures year % 4 == 0 && year % 100 == 0 ==> DaysInYear(year) == if year % 400 == 0 then 366 else 365
  {
    MonthsOfYear(year);
  }
}
