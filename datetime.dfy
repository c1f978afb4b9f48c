/** A JavaScript `Date` seen through its UTC fields. `IsoString` is what
    `Date.prototype.toISOString` prints for a four-digit year, `EpochMillis`
    what `getTime` returns (milliseconds since 1970-01-01T00:00:00.000Z in
    the proleptic Gregorian calendar). */
module DateTimes {
  import opened Text

  datatype DateTime = DateTime(
    year: nat, month: nat, day: nat,
    hour: nat, minute: nat, second: nat, millis: nat)

  predicate IsLeapYear(y: nat)
  {
    y % 4 == 0 && (y % 100 != 0 || y % 400 == 0)
  }

  function DaysInMonth(y: nat, m: nat): nat
  {
    if m == 2 then (if IsLeapYear(y) then 29 else 28)
    else if m == 4 || m == 6 || m == 9 || m == 11 then 30
    else 31
  }

  /** The instants `toISOString` prints with a plain four-digit year. */
  predicate Valid(d: DateTime)
  {
    && d.year <= 9999
    && 1 <= d.month <= 12
    && 1 <= d.day <= DaysInMonth(d.year, d.month)
    && d.hour < 24 && d.minute < 60 && d.second < 60 && d.millis < 1000
  }

  function DigitChar(k: nat): (c: char)
    requires k < 10
    ensures IsDigit(c)
  {
    ('0' as int + k) as char
  }

  function DigitValue(c: char): (k: nat)
    requires IsDigit(c)
    ensures k < 10 && DigitChar(k) == c
  {
    c as int - '0' as int
  }

  function Pow10(w: nat): (p: nat)
    ensures p >= 1
  {
    if w == 0 then 1 else 10 * Pow10(w - 1)
  }

  /** `n` printed in exactly `w` decimal digits, most significant first, with
      leading zeros: the zero-padded fields of `toISOString`. */
  function Padded(n: nat, w: nat): (r: string)
    ensures |r| == w && AllDigits(r)
  {
    if w == 0 then [] else Padded(n / 10, w - 1) + [DigitChar(n % 10)]
  }

  /** Reading the digits of a padded number back. */
  function DigitsValue(s: string): (n: nat)
    requires AllDigits(s)
  {
    if s == [] then 0 else 10 * DigitsValue(s[..|s| - 1]) + DigitValue(s[|s| - 1])
  }

  /** Padding loses nothing when the number fits in the width. */
  lemma {:induction false} PaddedRoundTrip(n: nat, w: nat)
    requires n < Pow10(w)
    ensures DigitsValue(Padded(n, w)) == n
  {
    if w > 0 {
      var r := Padded(n, w);
      assert r[..|r| - 1] == Padded(n / 10, w - 1);
      PaddedRoundTrip(n / 10, w - 1);
    }
  }

  /** `YYYY-MM-DD` */
  function IsoDate(d: DateTime): string
  {
    Padded(d.year, 4) + "-" + Padded(d.month, 2) + "-" + Padded(d.day, 2)
  }

  /** `HH:mm:ss` */
  function IsoTime(d: DateTime): string
  {
    Padded(d.hour, 2) + ":" + Padded(d.minute, 2) + ":" + Padded(d.second, 2)
  }

  /** `Date.prototype.toISOString`: `YYYY-MM-DDTHH:mm:ss.sssZ`. */
  function IsoString(d: DateTime): string
  {
    IsoDate(d) + "T" + IsoTime(d) + "." + Padded(d.millis, 3) + "Z"
  }

  /** Days from 0000-01-01 to January 1st of year `y`. */
  function DaysBeforeYear(y: nat): nat
  {
    365 * y + (y + 3) / 4 - (y + 99) / 100 + (y + 399) / 400
  }

  /** Days from January 1st to the first day of month `m` of year `y`
      (months outside 1..12 do not occur in a valid date and count as 0). */
  function DaysBeforeMonth(y: nat, m: nat): nat
  {
    var table := [0, 31, 59, 90, 120, 151, 181, 212, 243, 273, 304, 334];
    if 1 <= m <= 12 then table[m - 1] + (if m > 2 && IsLeapYear(y) then 1 else 0) else 0
  }

  /** Days from 1970-01-01 to the date of `d`. */
  function DayNumber(d: DateTime): int
  {
    DaysBeforeYear(d.year) - DaysBeforeYear(1970) + DaysBeforeMonth(d.year, d.month) + d.day - 1
  }

  /** Milliseconds since midnight. */
  function TimeOfDay(d: DateTime): int
  {
    d.hour * 3600000 + d.minute * 60000 + d.second * 1000 + d.millis
  }

  /** `Date.prototype.getTime`, meaningful for a `Valid` date. */
  function EpochMillis(d: DateTime): int
  {
    DayNumber(d) * 86400000 + TimeOfDay(d)
  }

  /** The calendar order of two dates, field by field from the year down to
      the millisecond. */
  predicate Before(a: DateTime, b: DateTime)
  {
    || a.year < b.year
    || (a.year == b.year && a.month < b.month)
    || (a.year == b.year && a.month == b.month && a.day < b.day)
    || (a.year == b.year && a.month == b.month && a.day == b.day && TimeBefore(a, b))
  }

  predicate TimeBefore(a: DateTime, b: DateTime)
  {
    || a.hour < b.hour
    || (a.hour == b.hour && a.minute < b.minute)
    || (a.hour == b.hour && a.minute == b.minute && a.second < b.second)
    || (a.hour == b.hour && a.minute == b.minute && a.second == b.second && a.millis < b.millis)
  }

  /** The epoch is 1970-01-01T00:00:00.000Z: on that day `getTime` counts the
      milliseconds since midnight, so midnight is instant 0. */
  lemma EpochStart(d: DateTime)
    requires d.year == 1970 && d.month == 1 && d.day == 1
    ensures EpochMillis(d) == TimeOfDay(d)
    ensures d.hour == 0 && d.minute == 0 && d.second == 0 && d.millis == 0 ==> EpochMillis(d) == 0
  {
    assert DayNumber(d) == 0;
  }

  /** `getTime` orders valid dates as the calendar does, and tells different
      dates apart: the sort key of the event pages is the chronological order. */
  lemma EpochOrder(a: DateTime, b: DateTime)
    requires Valid(a) && Valid(b)
    ensures EpochMillis(a) < EpochMillis(b) <==> Before(a, b)
    ensures EpochMillis(a) == EpochMillis(b) <==> a == b
  {
    DayOrder(a, b);
    DayOrder(b, a);
    var da, db, ta, tb := DayNumber(a), DayNumber(b), TimeOfDay(a), TimeOfDay(b);
    assert 0 <= ta < 86400000 && 0 <= tb < 86400000;
    if da < db {
      assert da * 86400000 + ta < (da + 1) * 86400000 <= db * 86400000 + tb;
    } else if db < da {
      assert db * 86400000 + tb < (db + 1) * 86400000 <= da * 86400000 + ta;
    }
  }

  /** The day number orders dates by (year, month, day). */
  lemma DayOrder(a: DateTime, b: DateTime)
    requires Valid(a) && Valid(b)
    ensures DayNumber(a) < DayNumber(b) <==>
      a.year < b.year || (a.year == b.year && (a.month < b.month || (a.month == b.month && a.day < b.day)))
  {
    DayInYear(a);
    DayInYear(b);
    if a.year < b.year {
      YearsApart(a.year, b.year);
    } else if b.year < a.year {
      YearsApart(b.year, a.year);
    } else if a.month < b.month {
      MonthsApart(a.year, a.month, b.month);
    } else if b.month < a.month {
      MonthsApart(a.year, b.month, a.month);
    }
  }

  function DaysInYear(y: nat): nat
  {
    if IsLeapYear(y) then 366 else 365
  }

  /** One year further is one year's days further. */
  lemma YearStep(y: nat)
    ensures DaysBeforeYear(y + 1) == DaysBeforeYear(y) + DaysInYear(y)
  {
    Step4(y);
    Step100(y);
    Step400(y);
    Divides(y);
    var a, b, c := if y % 4 == 0 then 1 else 0, if y % 100 == 0 then 1 else 0, if y % 400 == 0 then 1 else 0;
    assert a - b + c == if IsLeapYear(y) then 1 else 0;
  }

  /** A multiple of 400 is one of 100, and a multiple of 100 one of 4. */
  lemma Divides(y: nat)
    ensures y % 400 == 0 ==> y % 100 == 0
    ensures y % 100 == 0 ==> y % 4 == 0
  {
    if y % 400 == 0 {
      assert y == 100 * (4 * (y / 400));
    }
    if y % 100 == 0 {
      assert y == 4 * (25 * (y / 100));
    }
  }

  /** `(y + k - 1) / k` steps up exactly at the multiples of `k`. */
  lemma Step4(y: nat)
    ensures (y + 4) / 4 == (y + 3) / 4 + (if y % 4 == 0 then 1 else 0)
  {
  }

  lemma Step100(y: nat)
    ensures (y + 100) / 100 == (y + 99) / 100 + (if y % 100 == 0 then 1 else 0)
  {
  }

  lemma Step400(y: nat)
    ensures (y + 400) / 400 == (y + 399) / 400 + (if y % 400 == 0 then 1 else 0)
  {
  }

  lemma {:induction false} YearsApart(y1: nat, y2: nat)
    requires y1 < y2
    ensures DaysBeforeYear(y1) + DaysInYear(y1) <= DaysBeforeYear(y2)
    decreases y2 - y1
  {
    YearStep(y1);
    if y1 + 1 < y2 {
      YearsApart(y1 + 1, y2);
    }
  }

  /** One month further is that month's days further. */
  lemma MonthStep(y: nat, m: nat)
    requires 1 <= m <= 12
    ensures DaysBeforeMonth(y, m) + DaysInMonth(y, m)
         == if m < 12 then DaysBeforeMonth(y, m + 1) else DaysInYear(y)
  {
  }

  lemma {:induction false} MonthsApart(y: nat, m1: nat, m2: nat)
    requires 1 <= m1 < m2 <= 12
    ensures DaysBeforeMonth(y, m1) + DaysInMonth(y, m1) <= DaysBeforeMonth(y, m2)
    decreases m2 - m1
  {
    MonthStep(y, m1);
    if m1 + 1 < m2 {
      MonthsApart(y, m1 + 1, m2);
    }
  }

  /** The day of a valid date falls inside its year. */
  lemma DayInYear(d: DateTime)
    requires Valid(d)
    ensures 0 <= DaysBeforeMonth(d.year, d.month) + d.day - 1 < DaysInYear(d.year)
  {
    MonthStep(d.year, 12);
    if d.month < 12 {
      MonthsApart(d.year, d.month, 12);
    }
  }
}
