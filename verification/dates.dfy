/** The calendar arithmetic behind `(date - datetime(2024, 11, 1)).days`,
    `date.weekday()` and `date.strftime("%Y-%m-%d")`: proleptic Gregorian
    ordinals (day 1 is 0001-01-01) and the ten-character document key. */
module Dates {
  import opened Records

  datatype Date = Date(year: int, month: int, day: int)

  predicate IsLeapYear(y: int)
  {
    y % 4 == 0 && (y % 100 != 0 || y % 400 == 0)
  }

  function DaysInMonth(y: int, m: int): (n: int)
    ensures 28 <= n <= 31
  {
    if m == 2 then (if IsLeapYear(y) then 29 else 28)
    else if m == 4 || m == 6 || m == 9 || m == 11 then 30
    else 31
  }

  /** A date a Python `datetime` can hold. */
  predicate IsValid(d: Date)
  {
    1 <= d.year <= 9999 && 1 <= d.month <= 12 && 1 <= d.day <= DaysInMonth(d.year, d.month)
  }

  type CalendarDate = d: Date | IsValid(d) witness Date(2024, 11, 1)

  /** Days in the years before year `y`. */
  function DaysBeforeYear(y: int): int
  {
    var p := y - 1;
    p * 365 + p / 4 - p / 100 + p / 400
  }

  /** Days in the months of year `y` before month `m`. */
  function DaysBeforeMonth(y: int, m: int): int
    requires 1 <= m <= 12
  {
    [0, 31, 59, 90, 120, 151, 181, 212, 243, 273, 304, 334][m - 1]
      + (if m > 2 && IsLeapYear(y) then 1 else 0)
  }

  /** The ordinal of a date; 0001-01-01 has ordinal 1. */
  function Ordinal(d: CalendarDate): int
  {
    DaysBeforeYear(d.year) + DaysBeforeMonth(d.year, d.month) + d.day
  }

  /** Day zero of the shift rotation. */
  const EPOCH: CalendarDate := Date(2024, 11, 1)

  /** Whole days from the epoch to `d`; a time of day on `d` does not change
      the floor of the difference. */
  function DaysSinceEpoch(d: CalendarDate): int
  {
    Ordinal(d) - Ordinal(EPOCH)
  }

  /** Python's weekday(): Monday is 0, Saturday 5, Sunday 6. */
  function Weekday(d: CalendarDate): (w: int)
    ensures 0 <= w < 7
  {
    (Ordinal(d) + 6) % 7
  }

  /** The calendar day after `d`. */
  function NextDay(d: CalendarDate): Date
  {
    if d.day < DaysInMonth(d.year, d.month) then Date(d.year, d.month, d.day + 1)
    else if d.month < 12 then Date(d.year, d.month + 1, 1)
    else Date(d.year + 1, 1, 1)
  }

  lemma EpochFacts()
    ensures Ordinal(EPOCH) == 739191
    ensures DaysSinceEpoch(EPOCH) == 0
    ensures Weekday(EPOCH) == 4
  {
  }

  lemma MonthLengthsAdd(y: int, m: int)
    requires 1 <= m < 12
    ensures DaysBeforeMonth(y, m + 1) == DaysBeforeMonth(y, m) + DaysInMonth(y, m)
  {
  }

  lemma {:induction false} YearLengthsAdd(y: int)
    requires y >= 1
    ensures DaysBeforeYear(y + 1) == DaysBeforeYear(y) + DaysBeforeMonth(y, 12) + 31
  {
    var p := y - 1;
    DivStep(y, 4);
    DivStep(y, 100);
    DivStep(y, 400);
    LeapDivisibility(y);
    assert DaysBeforeMonth(y, 12) == 334 + (if IsLeapYear(y) then 1 else 0);
    assert DaysBeforeYear(y + 1) - DaysBeforeYear(y)
        == 365 + (y / 4 - p / 4) - (y / 100 - p / 100) + (y / 400 - p / 400);
  }

  /** Every fourth-century year is a century year, every century year a
      fourth year. */
  lemma LeapDivisibility(y: int)
    ensures y % 400 == 0 ==> y % 100 == 0
    ensures y % 100 == 0 ==> y % 4 == 0
  {
    if y % 400 == 0 {
      MultipleMod(y / 400 * 4, 100);
      assert y == y / 400 * 4 * 100;
    }
    if y % 100 == 0 {
      MultipleMod(y / 100 * 25, 4);
      assert y == y / 100 * 25 * 4;
    }
  }

  // The case splits below restate the ensures with a literal divisor; they
  // are there to keep verification stable across solver seeds.
  lemma MultipleMod(q: int, k: int)
    requires k == 4 || k == 100
    ensures (q * k) % k == 0
  {
    if k == 4 {
      assert (q * 4) % 4 == 0;
    } else {
      assert (q * 100) % 100 == 0;
    }
  }

  /** Going from y - 1 to y, the quotient by 4, 100 or 400 grows exactly
      when the divisor divides y. The case split, as in MultipleMod, gives the
      solver a literal divisor. */
  lemma DivStep(y: int, k: int)
    requires k == 4 || k == 100 || k == 400
    ensures y / k - (y - 1) / k == (if y % k == 0 then 1 else 0)
  {
    if k == 4 {
      assert y / 4 - (y - 1) / 4 == (if y % 4 == 0 then 1 else 0);
    } else if k == 100 {
      assert y / 100 - (y - 1) / 100 == (if y % 100 == 0 then 1 else 0);
    } else {
      assert y / 400 - (y - 1) / 400 == (if y % 400 == 0 then 1 else 0);
    }
  }

  lemma WeekdayStep(o: int)
    ensures (o + 1 + 6) % 7 == ((o + 6) % 7 + 1) % 7
  {
  }

  /** Consecutive calendar days have consecutive ordinals, so the rotation
      index advances by exactly one per day, across month and year ends. */
  lemma {:induction false} NextDayAdvances(d: CalendarDate)
    requires d.year < 9999 || d.month < 12 || d.day < 31
    ensures IsValid(NextDay(d))
    ensures Ordinal(NextDay(d)) == Ordinal(d) + 1
    ensures Weekday(NextDay(d)) == (Weekday(d) + 1) % 7
  {
    NextDayOrdinal(d);
    WeekdayStep(Ordinal(d));
  }

  lemma NextDayOrdinal(d: CalendarDate)
    requires d.year < 9999 || d.month < 12 || d.day < 31
    ensures IsValid(NextDay(d))
    ensures Ordinal(NextDay(d)) == Ordinal(d) + 1
  {
    if d.day < DaysInMonth(d.year, d.month) {
      assert NextDay(d) == Date(d.year, d.month, d.day + 1);
    } else if d.month < 12 {
      assert NextDay(d) == Date(d.year, d.month + 1, 1);
      MonthLengthsAdd(d.year, d.month);
    } else {
      assert NextDay(d) == Date(d.year + 1, 1, 1);
      YearLengthsAdd(d.year);
    }
  }

  // The document key, strftime("%Y-%m-%d").

  function Pow10(k: nat): (p: nat)
    ensures p >= 1
  {
    if k == 0 then 1 else 10 * Pow10(k - 1)
  }

  function DigitChar(v: int): char
    requires 0 <= v < 10
  {
    ('0' as int + v) as char
  }

  predicate IsDigit(c: char)
  {
    '0' <= c <= '9'
  }

  /** The last `width` decimal digits of `n`, zero-padded on the left. */
  function Digits(n: nat, width: nat): (s: string)
    ensures |s| == width
    ensures forall i :: 0 <= i < width ==> IsDigit(s[i])
  {
    if width == 0 then "" else Digits(n / 10, width - 1) + [DigitChar(n % 10)]
  }

  /** The decimal value of a string of digits. */
  function DigitsValue(s: string): nat
  {
    if s == [] then 0
    else
      var last := if IsDigit(s[|s| - 1]) then s[|s| - 1] as int - '0' as int else 0;
      DigitsValue(s[..|s| - 1]) * 10 + last
  }

  lemma {:induction false} DigitsRoundTrip(n: nat, width: nat)
    requires n < Pow10(width)
    ensures DigitsValue(Digits(n, width)) == n
  {
    if width > 0 {
      var s := Digits(n, width);
      assert s[..width - 1] == Digits(n / 10, width - 1);
      assert n / 10 < Pow10(width - 1);
      DigitsRoundTrip(n / 10, width - 1);
    }
  }

  /** The `dateDocId` of a date: YYYY-MM-DD. */
  function DateKey(d: CalendarDate): (key: string)
    ensures |key| == 10 && key[4] == '-' && key[7] == '-'
    ensures forall i :: 0 <= i < 10 && i != 4 && i != 7 ==> IsDigit(key[i])
  {
    Digits(d.year, 4) + "-" + Digits(d.month, 2) + "-" + Digits(d.day, 2)
  }

  /** Reads a key of the form YYYY-MM-DD back into a date. */
  function ParseDateKey(s: string): Option<Date>
  {
    if |s| == 10 && s[4] == '-' && s[7] == '-'
       && (forall i :: 0 <= i < 10 && i != 4 && i != 7 ==> IsDigit(s[i]))
    then Some(Date(DigitsValue(s[..4]), DigitsValue(s[5..7]), DigitsValue(s[8..])))
    else None
  }

  lemma DateKeyRoundTrip(d: Date)
    requires IsValid(d)
    ensures ParseDateKey(DateKey(d)) == Some(d)
  {
    var key := DateKey(d);
    assert key[..4] == Digits(d.year, 4);
    assert key[5..7] == Digits(d.month, 2);
    assert key[8..] == Digits(d.day, 2);
    DigitsRoundTrip(d.year, 4);
    DigitsRoundTrip(d.month, 2);
    DigitsRoundTrip(d.day, 2);
  }

  /** Distinct dates have distinct keys, so one document per key is one
      document per date. */
  lemma DateKeyInjective(a: CalendarDate, b: CalendarDate)
    requires DateKey(a) == DateKey(b)
    ensures a == b
  {
    DateKeyRoundTrip(a);
    DateKeyRoundTrip(b);
  }
}
