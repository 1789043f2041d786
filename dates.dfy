/**
 * Calendar instants as the release page reads them from a JavaScript
 * `Date`: full year, `getMonth()` (0..11), `getDate()` (1..31) and the
 * milliseconds into that day. `Stamp` plays the part of `getTime()`.
 */
module Dates {
  import Text

  type Month = m: int | 0 <= m < 12
  type Day = d: int | 1 <= d <= 31 witness 1

  const MsPerDay := 86_400_000
  type MsOfDay = ms: int | 0 <= ms < MsPerDay

  datatype Date = Date(year: int, month: Month, day: Day, ms: MsOfDay)

  /** The first stamp of month `m` of `year` (`m` may be 12: the next year's January). */
  function MonthStart(year: int, m: int): int
  {
    (year * 12 + m) * 31 * MsPerDay
  }

  /** The instant as one number, ordered like `getTime()`. */
  function Stamp(d: Date): int
  {
    ((d.year * 12 + d.month) * 31 + (d.day - 1)) * MsPerDay + d.ms
  }

  /** Every instant of a month falls inside that month's block of stamps. */
  lemma StampInMonth(d: Date)
    ensures MonthStart(d.year, d.month) <= Stamp(d) < MonthStart(d.year, d.month + 1)
  {
  }

  /** `getTime()` orders instants as the calendar does: by year, then month, day and time of day. */
  lemma StampOrder(a: Date, b: Date)
    ensures Stamp(a) < Stamp(b) <==>
      || a.year < b.year
      || (a.year == b.year && a.month < b.month)
      || (a.year == b.year && a.month == b.month && a.day < b.day)
      || (a.year == b.year && a.month == b.month && a.day == b.day && a.ms < b.ms)
  {
  }

  /** A non-zero multiple of a positive `m` is at least `m` away from zero. */
  lemma MultipleBound(d: int, m: int)
    requires 0 < m
    ensures d >= 1 ==> d * m >= m
    ensures d <= -1 ==> d * m <= -m
  {
  }

  /** `q * m + r` with `0 <= r < m` determines `q` and `r`. */
  lemma DivModUnique(q1: int, r1: int, q2: int, r2: int, m: int)
    requires 0 < m && 0 <= r1 < m && 0 <= r2 < m
    requires q1 * m + r1 == q2 * m + r2
    ensures q1 == q2 && r1 == r2
  {
    assert (q1 - q2) * m == r2 - r1;
    MultipleBound(q1 - q2, m);
  }

  /** Two dates have the same `getTime()` exactly when they are the same instant. */
  lemma StampInjective(a: Date, b: Date)
    ensures Stamp(a) == Stamp(b) <==> a == b
  {
    if Stamp(a) == Stamp(b) {
      DivModUnique((a.year * 12 + a.month) * 31 + (a.day - 1), a.ms,
                   (b.year * 12 + b.month) * 31 + (b.day - 1), b.ms, MsPerDay);
      DivModUnique(a.year * 12 + a.month, a.day - 1, b.year * 12 + b.month, b.day - 1, 31);
      DivModUnique(a.year, a.month, b.year, b.month, 12);
    }
  }

  /** `d` lies in the calendar month and year of `today`. */
  predicate InCurrentMonth(d: Date, today: Date)
  {
    d.month == today.month && d.year == today.year
  }

  /**
   * A date is in today's month exactly when its instant falls between the
   * first instant of today's month and the first instant of the next one.
   */
  lemma InCurrentMonthBlock(d: Date, today: Date)
    ensures InCurrentMonth(d, today) <==>
      MonthStart(today.year, today.month) <= Stamp(d) < MonthStart(today.year, today.month + 1)
  {
    StampInMonth(d);
    if MonthStart(today.year, today.month) <= Stamp(d) < MonthStart(today.year, today.month + 1) {
      assert d.year * 12 + d.month == today.year * 12 + today.month;
      DivModUnique(d.year, d.month, today.year, today.month, 12);
    }
  }

  /** `formatDate`: `MM/DD`, month counted from 1, both parts zero-padded to two digits. */
  function FormatDate(d: Date): (r: string)
    ensures |r| == 5 && r[2] == '/'
    ensures Text.AllDigits(r[..2]) && Text.DigitsValue(r[..2]) == d.month + 1
    ensures Text.AllDigits(r[3..]) && Text.DigitsValue(r[3..]) == d.day
  {
    var mm := Text.PadStart(Text.DecimalString(d.month + 1), 2, '0');
    var dd := Text.PadStart(Text.DecimalString(d.day), 2, '0');
    var r := mm + "/" + dd;
    assert r[..2] == mm && r[3..] == dd;
    TwoDigits(d.month + 1);
    TwoDigits(d.day);
    r
  }

  /** Zero-padding a number below 100 to width two keeps its value. */
  lemma TwoDigits(n: nat)
    requires n < 100
    ensures var s := Text.PadStart(Text.DecimalString(n), 2, '0');
      |s| == 2 && Text.AllDigits(s) && Text.DigitsValue(s) == n
  {
    var t := Text.DecimalString(n);
    var s := Text.PadStart(t, 2, '0');
    if |t| == 1 {
      assert s == ['0'] + t;
      assert s[..1] == ['0'];
      assert Text.DigitsValue(s[..1]) == 0 by {
        assert s[..1][..0] == [];
      }
      assert Text.DigitsValue(t) == Text.DigitValue(t[0]) by {
        assert t[..0] == [];
      }
    }
  }
}
