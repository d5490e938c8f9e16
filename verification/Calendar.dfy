/**
 * The proleptic Gregorian calendar and ISO weeks. Days are numbered from 1 January of year 0, and every
 * calendar question is a question about that number: which year it falls in, which month and day of
 * that year, which weekday, and which week of which ISO year. Negative years are years before year 0;
 * nothing here asks for a year to be positive.
 */
module Calendar {
  import opened Wrappers

  // ---------------------------------------------------------------- years, months and days

  predicate Leap(y: int) {
    y % 4 == 0 && (y % 100 != 0 || y % 400 == 0)
  }

  /** The number of 1 January of year y. */
  function YearStart(y: int): int {
    365 * y + (y + 3) / 4 - (y + 99) / 100 + (y + 399) / 400
  }

  lemma DivStep(y: int, n: int)
    requires n > 0
    ensures (y + n) / n == (y + n - 1) / n + if y % n == 0 then 1 else 0
  {
    var q, r := y / n, y % n;
    assert y == n * q + r;
    if r == 0 {
      assert (y + n - 1) / n == q by {
        QuotientIs(y + n - 1, n, q);
      }
      QuotientIs(y + n, n, q + 1);
    } else {
      QuotientIs(y + n - 1, n, q + 1);
      QuotientIs(y + n, n, q + 1);
    }
  }

  lemma QuotientIs(a: int, n: int, q: int)
    requires n > 0 && n * q <= a < n * q + n
    ensures a / n == q
  {
    var p := a / n;
    assert n * p <= a < n * p + n;
    ProductsOrdered(n, p + 1, q);
    ProductsOrdered(n, q + 1, p);
  }

  lemma ProductsOrdered(n: int, a: int, b: int)
    requires n > 0
    ensures a <= b ==> n * a <= n * b
  {
  }

  lemma LeapCycle(y: int)
    ensures y % 400 == 0 ==> y % 100 == 0
    ensures y % 100 == 0 ==> y % 4 == 0
  {
    if y % 400 == 0 {
      QuotientIs(y, 100, 4 * (y / 400));
    }
    if y % 100 == 0 {
      QuotientIs(y, 4, 25 * (y / 100));
    }
  }

  /** A year has 366 days exactly if it is a leap year. */
  lemma YearLength(y: int)
    ensures YearStart(y + 1) == YearStart(y) + if Leap(y) then 366 else 365
  {
    DivStep(y, 4);
    DivStep(y, 100);
    DivStep(y, 400);
    LeapCycle(y);
    assert YearStart(y + 1) == 365 * y + 365 + (y + 4) / 4 - (y + 100) / 100 + (y + 400) / 400;
  }

  lemma {:induction false} YearsIncrease(y: int, z: int)
    requires y < z
    ensures YearStart(y) + 365 * (z - y) <= YearStart(z)
    decreases z - y
  {
    YearLength(z - 1);
    if y < z - 1 {
      YearsIncrease(y, z - 1);
    }
  }

  /** Days of the year before month m; month 13 is the next January. */
  function DaysBefore(m: int, leap: bool): int
    requires 1 <= m <= 13
  {
    [0, 31, 59, 90, 120, 151, 181, 212, 243, 273, 304, 334, 365][m - 1] + if leap && m > 2 then 1 else 0
  }

  datatype Date = Date(year: int, month: int, day: int)

  predicate ValidDate(d: Date) {
    1 <= d.month <= 12
    && 1 <= d.day <= DaysBefore(d.month + 1, Leap(d.year)) - DaysBefore(d.month, Leap(d.year))
  }

  /** Days beyond the end of the month run on into the next, as in time.Date. */
  function DayNumber(year: int, month: int, day: int): int
    requires 1 <= month <= 12
  {
    YearStart(year) + DaysBefore(month, Leap(year)) + day - 1
  }

  function FindYear(n: int, y: int): (r: int)
    ensures YearStart(r) <= n < YearStart(r + 1)
    decreases if n < YearStart(y) then YearStart(y) - n + 366 else n - YearStart(y)
  {
    YearLength(y);
    YearLength(y - 1);
    if n < YearStart(y) then FindYear(n, y - 1)
    else if n >= YearStart(y + 1) then FindYear(n, y + 1)
    else y
  }

  function YearOf(n: int): (y: int)
    ensures YearStart(y) <= n < YearStart(y + 1)
  {
    FindYear(n, 0)
  }

  lemma YearIs(n: int, y: int)
    requires YearStart(y) <= n < YearStart(y + 1)
    ensures YearOf(n) == y
  {
    var r := YearOf(n);
    if r < y {
      if r + 1 < y {
        YearsIncrease(r + 1, y);
      }
    } else if y < r {
      if y + 1 < r {
        YearsIncrease(y + 1, r);
      }
    }
  }

  function FindMonth(k: int, leap: bool, m: int): (r: int)
    requires 1 <= m <= 12 && DaysBefore(m, leap) <= k < DaysBefore(13, leap)
    ensures 1 <= r <= 12 && DaysBefore(r, leap) <= k < DaysBefore(r + 1, leap)
    decreases 12 - m
  {
    if k < DaysBefore(m + 1, leap) then m else FindMonth(k, leap, m + 1)
  }

  /** The date of a day. */
  function Civil(n: int): (d: Date)
    ensures ValidDate(d) && DayNumber(d.year, d.month, d.day) == n
  {
    var y := YearOf(n);
    YearLength(y);
    var m := FindMonth(n - YearStart(y), Leap(y), 1);
    Date(y, m, n - YearStart(y) - DaysBefore(m, Leap(y)) + 1)
  }

  lemma MonthsIncrease(m: int, k: int, leap: bool)
    requires 1 <= m < k <= 13
    ensures DaysBefore(m, leap) + 28 <= DaysBefore(k, leap)
  {
  }

  lemma DayInYear(d: Date)
    requires ValidDate(d)
    ensures YearStart(d.year) <= DayNumber(d.year, d.month, d.day) < YearStart(d.year + 1)
  {
    YearLength(d.year);
    if d.month < 12 {
      MonthsIncrease(d.month + 1, 13, Leap(d.year));
    }
  }

  lemma MonthIs(k: int, leap: bool, m: int, c: int)
    requires 1 <= m <= 12 && 1 <= c <= 12
    requires DaysBefore(m, leap) <= k < DaysBefore(m + 1, leap) && DaysBefore(c, leap) <= k < DaysBefore(c + 1, leap)
    ensures m == c
  {
    if c < m {
      if c + 1 < m {
        MonthsIncrease(c + 1, m, leap);
      }
    } else if m < c {
      if m + 1 < c {
        MonthsIncrease(m + 1, c, leap);
      }
    }
  }

  /** Dates and day numbers correspond one to one. */
  lemma CivilInverts(d: Date)
    requires ValidDate(d)
    ensures Civil(DayNumber(d.year, d.month, d.day)) == d
  {
    hide Civil, YearStart, DaysBefore;
    var n := DayNumber(d.year, d.month, d.day);
    var c := Civil(n);
    DayInYear(d);
    DayInYear(c);
    YearIs(n, d.year);
    YearIs(n, c.year);
    MonthIs(n - YearStart(d.year), Leap(d.year), d.month, c.month);
  }

  // ---------------------------------------------------------------- weeks

  /** time.Weekday: 1 January of year 0 is a Saturday, and Sunday is 0. */
  function Weekday(n: int): (w: int)
    ensures 0 <= w < 7
  {
    (n + 6) % 7
  }

  /** Monday is 1, Sunday 7. */
  function IsoWeekday(n: int): (w: int)
    ensures 1 <= w <= 7
  {
    if Weekday(n) == 0 then 7 else Weekday(n)
  }

  /** The Thursday of the week that begins on the Monday at or before n. */
  function ThursdayOf(n: int): int {
    n - IsoWeekday(n) + 4
  }

  /** The ISO year of a day is the year of its week's Thursday (section 4.1.4 of ISO 8601:2004). */
  function IsoYear(n: int): int {
    YearOf(ThursdayOf(n))
  }

  /** Weeks are counted by their Thursdays. */
  function IsoWeek(n: int): (w: int)
    ensures 1 <= w <= 53
  {
    var y := IsoYear(n);
    YearLength(y);
    (ThursdayOf(n) - YearStart(y)) / 7 + 1
  }

  /** The Monday of the week that 4 January is in. */
  function Week1Monday(y: int): int {
    var jan4 := DayNumber(y, 1, 4);
    jan4 - (IsoWeekday(jan4) - 1)
  }

  function IsoWeekDateSpec(year: int, week: int, dayOfWeek: int): Option<Date> {
    if week < 1 || week > 53 || dayOfWeek < 1 || dayOfWeek > 7 then None
    else Some(Civil(Week1Monday(year) + (week - 1) * 7 + (dayOfWeek - 1)))
  }

  method IsoWeekDate(year: int, week: int, dayOfWeek: int) returns (date: Option<Date>)
    ensures date == IsoWeekDateSpec(year, week, dayOfWeek)
  {
    if week < 1 || week > 53 || dayOfWeek < 1 || dayOfWeek > 7 {
      return None;
    }
    var jan4 := DayNumber(year, 1, 4);
    var wd := Weekday(jan4);
    if wd == 0 {
      wd := 7;
    }
    var week1Monday := jan4 + -(wd - 1);
    return Some(Civil(week1Monday + ((week - 1) * 7 + (dayOfWeek - 1))));
  }

  /** Week 1 is the week of the year's first Thursday. */
  lemma FirstThursday(y: int)
    ensures YearStart(y) <= Week1Monday(y) + 3 <= YearStart(y) + 6
    ensures IsoWeekday(Week1Monday(y)) == 1
  {
    WeekdayRepeats(DayNumber(y, 1, 4), -(IsoWeekday(DayNumber(y, 1, 4)) - 1));
  }

  lemma WeekdayRepeats(n: int, k: int)
    ensures Weekday(n + k) == (Weekday(n) + k) % 7
  {
  }

  lemma MondaysApart(a: int, b: int)
    requires IsoWeekday(a) == 1 && IsoWeekday(b) == 1
    ensures (a - b) % 7 == 0
  {
  }

  /** Every day is its ISO weekday in its ISO week, counted from the Monday of week 1 of its ISO year. */
  lemma CountedFromWeek1(n: int)
    ensures Week1Monday(IsoYear(n)) + (IsoWeek(n) - 1) * 7 + (IsoWeekday(n) - 1) == n
  {
    var y := IsoYear(n);
    var monday, first := n - (IsoWeekday(n) - 1), Week1Monday(y);
    FirstThursday(y);
    WeekdayRepeats(n, -(IsoWeekday(n) - 1));
    MondaysApart(monday, first);
    var weeks := (monday - first) / 7;
    assert monday == first + 7 * weeks;
    assert monday + 3 == ThursdayOf(n);
    QuotientIs(ThursdayOf(n) - YearStart(y), 7, weeks);
  }

  /** isoWeekDate inverts the ISO week numbering on every date. */
  lemma IsoWeekDateInverts(d: Date)
    requires ValidDate(d)
    ensures var n := DayNumber(d.year, d.month, d.day);
            IsoWeekDateSpec(IsoYear(n), IsoWeek(n), IsoWeekday(n)) == Some(d)
  {
    hide Week1Monday, Civil, DayNumber;
    CountedFromWeek1(DayNumber(d.year, d.month, d.day));
    CivilInverts(d);
  }

  /** Consecutive ISO years are 52 or 53 weeks long. */
  lemma IsoYearLength(y: int)
    ensures Week1Monday(y + 1) - Week1Monday(y) in {364, 371}
  {
    hide Week1Monday, YearStart;
    FirstThursday(y);
    FirstThursday(y + 1);
    YearLength(y);
    MondaysApart(Week1Monday(y + 1), Week1Monday(y));
  }

  function WeeksIn(y: int): int {
    (Week1Monday(y + 1) - Week1Monday(y)) / 7
  }

  /** The Thursday of week w of year y falls into year y exactly if the year has that week. */
  lemma ThursdayInYear(y: int, w: int)
    requires 1 <= w <= 53
    ensures var t := Week1Monday(y) + 3 + (w - 1) * 7;
            YearStart(y) <= t && (t < YearStart(y + 1) <==> w <= WeeksIn(y))
  {
    hide Week1Monday, YearStart;
    FirstThursday(y);
    FirstThursday(y + 1);
    IsoYearLength(y);
  }

  /** The other way round: the date for a week has that ISO year, week and weekday exactly if the year has the week. */
  lemma IsoWeekDateExactly(y: int, w: int, k: int)
    requires 1 <= w <= 53 && 1 <= k <= 7
    ensures var n := Week1Monday(y) + (w - 1) * 7 + (k - 1);
            && IsoWeekDateSpec(y, w, k) == Some(Civil(n)) && IsoWeekday(n) == k
            && (IsoYear(n) == y && IsoWeek(n) == w <==> w <= WeeksIn(y))
  {
    hide Week1Monday, YearStart, Civil, YearOf, WeeksIn;
    var n := Week1Monday(y) + (w - 1) * 7 + (k - 1);
    FirstThursday(y);
    WeekdayRepeats(Week1Monday(y), (w - 1) * 7 + (k - 1));
    assert IsoWeekday(n) == k;
    ThursdayInYear(y, w);
    if w <= WeeksIn(y) {
      YearIs(ThursdayOf(n), y);
      QuotientIs(ThursdayOf(n) - YearStart(y), 7, w - 1);
    }
  }

  /** Week 53 of a year without one is week 1 of the next year. */
  lemma Week53RunsOn(y: int, k: int)
    requires WeeksIn(y) == 52 && 1 <= k <= 7
    ensures IsoWeekDateSpec(y, 53, k) == IsoWeekDateSpec(y + 1, 1, k)
  {
    hide Week1Monday, Civil;
    IsoYearLength(y);
  }
}
