/**
 * Local calendar dates of the proleptic Gregorian calendar, the part of a JavaScript
 * `Date` that the task view reads back (`getFullYear`, `getMonth() + 1`, `getDate`).
 * `new Date(y, mi, d)` and `setDate` roll out-of-range months and days over into
 * neighbouring months; `Normalize` does the same. A day ordinal replaces `getTime()`:
 * at local midnight both order dates alike, and the ordinal counts whole days.
 */
module Calendar {

  datatype CDate = CDate(y: int, m: int, d: int)

  predicate IsLeap(y: int) {
    y % 4 == 0 && (y % 100 != 0 || y % 400 == 0)
  }

  function DaysInYear(y: int): int {
    if IsLeap(y) then 366 else 365
  }

  function DaysInMonth(y: int, m: int): int
    requires 1 <= m <= 12
  {
    if m == 2 then (if IsLeap(y) then 29 else 28)
    else if m == 4 || m == 6 || m == 9 || m == 11 then 30
    else 31
  }

  /** A real calendar day: month 1..12 and a day that exists in that month. */
  predicate ValidDate(c: CDate) {
    1 <= c.m <= 12 && 1 <= c.d <= DaysInMonth(c.y, c.m)
  }

  /** Days in the years before `y`, counted from 0001-01-01. */
  function DaysBeforeYear(y: int): int {
    365 * (y - 1) + (y - 1) / 4 - (y - 1) / 100 + (y - 1) / 400
  }

  /** Days in the months of year `y` before month `m`. */
  function DaysBeforeMonth(y: int, m: int): int
    requires 1 <= m <= 12
  {
    (if m == 1 then 0 else if m == 2 then 31 else if m == 3 then 59 else if m == 4 then 90
     else if m == 5 then 120 else if m == 6 then 151 else if m == 7 then 181
     else if m == 8 then 212 else if m == 9 then 243 else if m == 10 then 273
     else if m == 11 then 304 else 334)
    + (if m > 2 && IsLeap(y) then 1 else 0)
  }

  /**
   * The day number of `c`, 0001-01-01 being day 1. It is defined for any day of a valid
   * month, so that a day past the month's end names the matching day of a later month.
   */
  function Ordinal(c: CDate): int
    requires 1 <= c.m <= 12
  {
    DaysBeforeYear(c.y) + DaysBeforeMonth(c.y, c.m) + c.d
  }

  /** `a` is an earlier calendar day than `b`. */
  predicate Before(a: CDate, b: CDate) {
    a.y < b.y || (a.y == b.y && (a.m < b.m || (a.m == b.m && a.d < b.d)))
  }

  lemma YearStep(y: int)
    ensures DaysBeforeYear(y + 1) == DaysBeforeYear(y) + DaysInYear(y)
  {
    assert y / 4 - (y - 1) / 4 == (if y % 4 == 0 then 1 else 0);
    assert y / 100 - (y - 1) / 100 == (if y % 100 == 0 then 1 else 0);
    assert y / 400 - (y - 1) / 400 == (if y % 400 == 0 then 1 else 0);
  }

  /** The first day of the month after (`y`, `m`) is `DaysInMonth(y, m)` days after its first day. */
  lemma MonthStep(y: int, m: int)
    requires 1 <= m <= 12
    ensures m < 12 ==> Ordinal(CDate(y, m + 1, 1)) == Ordinal(CDate(y, m, 1)) + DaysInMonth(y, m)
    ensures m == 12 ==> Ordinal(CDate(y + 1, 1, 1)) == Ordinal(CDate(y, m, 1)) + DaysInMonth(y, m)
  {
    if m == 12 {
      YearStep(y);
    }
  }

  /**
   * The local fields of `new Date(y, m - 1, d)` once year and month are in range: the
   * day `d - 1` days after the first of month `m`, rolled into the month it falls in.
   */
  function RollDays(y: int, m: int, d: int): (r: CDate)
    requires 1 <= m <= 12
    ensures ValidDate(r)
    ensures 1 <= d <= DaysInMonth(y, m) ==> r == CDate(y, m, d)
    decreases d < 1, if d < 1 then -d else d
  {
    if d < 1 then
      var py, pm := if m == 1 then y - 1 else y, if m == 1 then 12 else m - 1;
      RollDays(py, pm, d + DaysInMonth(py, pm))
    else if d > DaysInMonth(y, m) then
      var ny, nm := if m == 12 then y + 1 else y, if m == 12 then 1 else m + 1;
      RollDays(ny, nm, d - DaysInMonth(y, m))
    else
      CDate(y, m, d)
  }

  /** Rolling a day over keeps its day number. */
  lemma {:induction false} RollDaysOrdinal(y: int, m: int, d: int)
    requires 1 <= m <= 12
    ensures Ordinal(RollDays(y, m, d)) == Ordinal(CDate(y, m, d))
    decreases d < 1, if d < 1 then -d else d
  {
    if d < 1 {
      var py, pm := if m == 1 then y - 1 else y, if m == 1 then 12 else m - 1;
      MonthStep(py, pm);
      RollDaysOrdinal(py, pm, d + DaysInMonth(py, pm));
    } else if d > DaysInMonth(y, m) {
      var ny, nm := if m == 12 then y + 1 else y, if m == 12 then 1 else m + 1;
      MonthStep(y, m);
      RollDaysOrdinal(ny, nm, d - DaysInMonth(y, m));
    }
  }

  /**
   * The calendar day that the fields (`y`, month index `mi`, `d`) denote once the month
   * index is carried into the year (`mi` may be negative or above 11) and the day is
   * rolled into its month; the year is taken literally.
   */
  function Normalize(y: int, mi: int, d: int): (r: CDate)
    ensures ValidDate(r)
    ensures ValidDate(CDate(y, mi + 1, d)) ==> r == CDate(y, mi + 1, d)
  {
    assert 0 <= mi <= 11 ==> y + mi / 12 == y && mi % 12 + 1 == mi + 1;
    RollDays(y + mi / 12, mi % 12 + 1, d)
  }

  /** The normalised day lies `d - 1` days after the first of the carried month. */
  lemma NormalizeOrdinal(y: int, mi: int, d: int)
    ensures Ordinal(Normalize(y, mi, d)) == Ordinal(CDate(y + mi / 12, mi % 12 + 1, 1)) + d - 1
  {
    RollDaysOrdinal(y + mi / 12, mi % 12 + 1, d);
  }

  /** The year rule of the `Date(year, monthIndex, day)` constructor: 0..99 mean 1900..1999. */
  function JsYear(y: int): (r: int)
    ensures r == y || r == y + 1900
    ensures !(0 <= r <= 99)
  {
    if 0 <= y <= 99 then 1900 + y else y
  }

  /** The local calendar day of `new Date(y, mi, d)`. */
  function MakeLocalDate(y: int, mi: int, d: int): (r: CDate)
    ensures ValidDate(r)
    ensures !(0 <= y <= 99) && ValidDate(CDate(y, mi + 1, d)) ==> r == CDate(y, mi + 1, d)
  {
    Normalize(JsYear(y), mi, d)
  }

  lemma MakeLocalDateOrdinal(y: int, mi: int, d: int)
    ensures Ordinal(MakeLocalDate(y, mi, d)) == Ordinal(CDate(JsYear(y) + mi / 12, mi % 12 + 1, 1)) + d - 1
  {
    NormalizeOrdinal(JsYear(y), mi, d);
  }

  /** `new Date(x.getFullYear(), x.getMonth(), x.getDate())`: local midnight of `x`'s day. */
  function LocalMidnight(c: CDate): (r: CDate)
    ensures ValidDate(r)
    ensures ValidDate(c) && !(0 <= c.y <= 99) ==> r == c
  {
    MakeLocalDate(c.y, c.m - 1, c.d)
  }

  /** `x.setDate(x.getDate() + k)` on a copy of `c`: the day `k` days after `c`. */
  function AddDays(c: CDate, k: int): (r: CDate)
    requires 1 <= c.m <= 12
    ensures ValidDate(r)
    ensures k == 0 && ValidDate(c) ==> r == c
  {
    Normalize(c.y, c.m - 1, c.d + k)
  }

  lemma AddDaysOrdinal(c: CDate, k: int)
    requires 1 <= c.m <= 12
    ensures Ordinal(AddDays(c, k)) == Ordinal(c) + k
  {
    var mi := c.m - 1;
    assert mi / 12 == 0 && mi % 12 + 1 == c.m;
    NormalizeOrdinal(c.y, mi, c.d + k);
    assert CDate(c.y + mi / 12, mi % 12 + 1, 1) == CDate(c.y, c.m, 1);
  }

  lemma {:induction false} DaysBeforeYearGrows(y1: int, y2: int)
    requires y1 <= y2
    ensures DaysBeforeYear(y2) >= DaysBeforeYear(y1) + 365 * (y2 - y1)
    decreases y2 - y1
  {
    if y1 < y2 {
      DaysBeforeYearGrows(y1, y2 - 1);
      YearStep(y2 - 1);
    }
  }

  lemma OrdinalWithinYear(c: CDate)
    requires ValidDate(c)
    ensures DaysBeforeYear(c.y) < Ordinal(c) <= DaysBeforeYear(c.y) + DaysInYear(c.y)
  {
  }

  lemma OrdinalBeforeLess(a: CDate, b: CDate)
    requires ValidDate(a) && ValidDate(b) && Before(a, b)
    ensures Ordinal(a) < Ordinal(b)
  {
    OrdinalWithinYear(a);
    OrdinalWithinYear(b);
    if a.y < b.y {
      DaysBeforeYearGrows(a.y + 1, b.y);
      YearStep(a.y);
    } else if a.m < b.m {
      assert DaysBeforeMonth(a.y, a.m) + DaysInMonth(a.y, a.m) <= DaysBeforeMonth(b.y, b.m);
    }
  }

  /** On real calendar days the ordinal is faithful to the calendar order, and one-to-one. */
  lemma OrdinalOrder(a: CDate, b: CDate)
    requires ValidDate(a) && ValidDate(b)
    ensures Before(a, b) <==> Ordinal(a) < Ordinal(b)
    ensures a == b <==> Ordinal(a) == Ordinal(b)
  {
    if Before(a, b) {
      OrdinalBeforeLess(a, b);
    } else if Before(b, a) {
      OrdinalBeforeLess(b, a);
    } else {
      assert a == b;
    }
  }

  /** Days less than a year apart lie in the same or in adjacent years. */
  lemma YearsNear(a: CDate, b: CDate)
    requires ValidDate(a) && ValidDate(b)
    requires -365 < Ordinal(b) - Ordinal(a) < 365
    ensures a.y - 1 <= b.y <= a.y + 1
  {
    OrdinalWithinYear(a);
    OrdinalWithinYear(b);
    if b.y > a.y + 1 {
      DaysBeforeYearGrows(a.y + 1, b.y);
      YearStep(a.y);
    } else if a.y > b.y + 1 {
      DaysBeforeYearGrows(b.y + 1, a.y);
      YearStep(b.y);
    }
  }
}
