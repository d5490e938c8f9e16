/**
 * Truncating a date or time to a unit: the last mark of the unit that is not after the input. A mark is
 * a day or an instant on which such a unit begins, said without any rounding. The code computes it field
 * by field; its divisions round toward zero, so decades, centuries and millennia before year 0 come out
 * one unit late unless the year is itself a mark.
 */
module Truncation {
  import opened Wrappers
  import opened Calendar

  datatype Unit =
    | Millennium | Century | Decade | Year | WeekYear | Quarter | Month | Week | Day
    | Hour | Minute | Second | Millisecond | Microsecond

  // ---------------------------------------------------------------- what a truncation should be

  /** The days on which a unit begins. */
  predicate DayMark(u: Unit, n: int) {
    match u
    case Millennium => n == YearStart(YearOf(n)) && YearOf(n) % 1000 == 0
    case Century => n == YearStart(YearOf(n)) && YearOf(n) % 100 == 0
    case Decade => n == YearStart(YearOf(n)) && YearOf(n) % 10 == 0
    case Year => n == YearStart(YearOf(n))
    case WeekYear => n == Week1Monday(IsoYear(n))
    case Quarter => Civil(n).day == 1 && Civil(n).month in {1, 4, 7, 10}
    case Month => Civil(n).day == 1
    case Week => IsoWeekday(n) == 1
    case _ => true
  }

  /** r is the last day up to n on which the unit begins. */
  ghost predicate IsDayFloor(u: Unit, n: int, r: int) {
    DayMark(u, r) && r <= n && forall b | r < b <= n :: !DayMark(u, b)
  }

  // ---------------------------------------------------------------- what the code computes

  /** Go's integer division rounds toward zero. */
  function Quotient(a: int, b: int): int
    requires b > 0
  {
    if a >= 0 then a / b else -((-a) / b)
  }

  function YearsIn(u: Unit): (k: int)
    ensures k > 0
  {
    match u
    case Millennium => 1000
    case Century => 100
    case Decade => 10
    case _ => 1
  }

  predicate DateUnit(u: Unit) {
    !(u.Hour? || u.Minute? || u.Second? || u.Millisecond? || u.Microsecond?)
  }

  function TruncatedDay(u: Unit, n: int): int {
    match u
    case WeekYear => Week1Monday(IsoYear(n))
    case Quarter => DayNumber(Civil(n).year, (Civil(n).month - 1) / 3 * 3 + 1, 1)
    case Month => DayNumber(Civil(n).year, Civil(n).month, 1)
    case Week => Week1Monday(IsoYear(n)) + (IsoWeek(n) - 1) * 7
    case Millennium | Century | Decade | Year => YearStart(Quotient(YearOf(n), YearsIn(u)) * YearsIn(u))
    case _ => n
  }

  method TruncateDate(u: Unit, n: int) returns (r: int)
    requires DateUnit(u)
    ensures r == TruncatedDay(u, n)
  {
    hide Civil, Week1Monday, IsoYear, IsoWeek, YearOf;
    var t := Civil(n);
    CivilYear(n);
    match u {
      case Millennium => r := DayNumber(Quotient(t.year, 1000) * 1000, 1, 1);
      case Century => r := DayNumber(Quotient(t.year, 100) * 100, 1, 1);
      case Decade => r := DayNumber(Quotient(t.year, 10) * 10, 1, 1);
      case Year => r := DayNumber(t.year, 1, 1);
      case WeekYear =>
        var monday := IsoWeekDate(IsoYear(n), 1, 1);
        r := DayNumber(monday.value.year, monday.value.month, monday.value.day);
      case Quarter =>
        var m := (t.month - 1) / 3 * 3 + 1;
        r := DayNumber(t.year, m, 1);
      case Month => r := DayNumber(t.year, t.month, 1);
      case Week =>
        var monday := IsoWeekDate(IsoYear(n), IsoWeek(n), 1);
        r := DayNumber(monday.value.year, monday.value.month, monday.value.day);
      case Day => r := DayNumber(t.year, t.month, t.day);
    }
  }

  lemma CivilYear(n: int)
    ensures Civil(n).year == YearOf(n)
  {
    DayInYear(Civil(n));
    YearIs(n, Civil(n).year);
  }

  // ---------------------------------------------------------------- the two agree

  lemma YearFloor(u: Unit, n: int)
    requires u in {Millennium, Century, Decade, Year}
    ensures IsDayFloor(u, n, TruncatedDay(u, n)) <==> YearOf(n) >= 0 || YearOf(n) % YearsIn(u) == 0
  {
    hide YearStart, Quotient;
    var y, k := YearOf(n), YearsIn(u);
    var z := Quotient(y, k) * k;
    RoundsDown(y, k);
    if y >= 0 || y % k == 0 {
      YearsFrom(z, y);
      YearStartsYear(z);
      forall b | YearStart(z) < b <= n ensures !DayMark(u, b) {
        var yb := YearOf(b);
        if b == YearStart(yb) {
          YearsBetween(z, b, y, n);
          NoMultipleBetween(z, yb, y, k);
        }
      }
    } else {
      YearsFrom(y + 1, z);
    }
  }

  lemma RoundsDown(y: int, k: int)
    requires k > 0
    ensures var z := Quotient(y, k) * k;
            && z % k == 0
            && if y >= 0 || y % k == 0 then z <= y < z + k else y < z
  {
    MultipleOf(Quotient(y, k), k);
    if y >= 0 {
    } else {
      NegativeRoundsUp(y, k);
    }
  }

  lemma NegativeRoundsUp(y: int, k: int)
    requires k > 0 && y < 0
    ensures y <= -((-y) / k) * k && (y == -((-y) / k) * k <==> y % k == 0)
  {
    var q := (-y) / k;
    assert -q * k == -(q * k);
    if y % k == 0 {
      var p := y / k;
      assert y == p * k;
      QuotientIs(-y, k, -p);
    } else if y == -q * k {
      MultipleOf(-q, k);
    }
  }

  lemma MultipleOf(q: int, k: int)
    requires k > 0
    ensures q * k % k == 0
  {
    QuotientIs(q * k, k, q);
  }

  lemma NoMultipleBetween(z: int, m: int, y: int, k: int)
    requires k > 0 && z % k == 0 && z < m <= y < z + k
    ensures m % k != 0
  {
    if m % k == 0 {
      var a, b := z / k, m / k;
      assert z == a * k && m == b * k;
      ProductsOrdered(k, a + 1, b);
      ProductsOrdered(k, b, a);
    }
  }

  lemma YearsFrom(y: int, z: int)
    requires y <= z
    ensures YearStart(y) <= YearStart(z)
  {
    if y < z {
      YearsIncrease(y, z);
    }
  }

  lemma YearStartsYear(y: int)
    ensures YearOf(YearStart(y)) == y
  {
    YearLength(y);
    YearIs(YearStart(y), y);
  }

  lemma YearsBetween(z: int, b: int, y: int, n: int)
    requires YearStart(z) < b <= n && YearOf(n) == y && b == YearStart(YearOf(b))
    ensures z < YearOf(b) <= y
  {
    if YearOf(b) <= z {
      YearsFrom(YearOf(b), z);
    }
    if YearOf(b) > y {
      YearsFrom(y + 1, YearOf(b));
    }
  }

  /** Within a year, later days are in later months. */
  lemma MonthsInOrder(a: int, b: int)
    requires a <= b && YearOf(a) == YearOf(b)
    ensures Civil(a).month <= Civil(b).month
    ensures Civil(a).month == Civil(b).month ==> Civil(b).day - Civil(a).day == b - a
  {
    CivilYear(a);
    CivilYear(b);
    var c, d, leap := Civil(a), Civil(b), Leap(YearOf(a));
    if d.month < c.month && d.month + 1 < c.month {
      MonthsIncrease(d.month + 1, c.month, leap);
    }
  }

  lemma SameYear(b: int, y: int, m: int, n: int)
    requires 1 <= m <= 12 && DayNumber(y, m, 1) <= b <= n && YearOf(n) == y
    ensures YearOf(b) == y && YearOf(DayNumber(y, m, 1)) == y
  {
    if m > 1 {
      MonthsIncrease(1, m, Leap(y));
    }
    YearIs(b, y);
    YearIs(DayNumber(y, m, 1), y);
  }

  lemma FirstOfMonth(y: int, m: int)
    requires 1 <= m <= 12
    ensures Civil(DayNumber(y, m, 1)) == Date(y, m, 1)
  {
    MonthsIncrease(m, m + 1, Leap(y));
    CivilInverts(Date(y, m, 1));
  }

  lemma MonthFloor(n: int)
    ensures IsDayFloor(Month, n, TruncatedDay(Month, n))
  {
    hide Civil, DayNumber, YearOf;
    var c := Civil(n);
    var r := DayNumber(c.year, c.month, 1);
    CivilYear(n);
    FirstOfMonth(c.year, c.month);
    MonthBegins(n);
    forall b | r < b <= n ensures !DayMark(Month, b) {
      SameYear(b, c.year, c.month, n);
      MonthsInOrder(r, b);
      MonthsInOrder(b, n);
    }
  }

  lemma MonthBegins(n: int)
    ensures var c := Civil(n); DayNumber(c.year, c.month, 1) == n - (c.day - 1)
  {
  }

  lemma QuarterFloor(n: int)
    ensures IsDayFloor(Quarter, n, TruncatedDay(Quarter, n))
  {
    hide Civil, DayNumber, YearOf;
    var c := Civil(n);
    var q := (c.month - 1) / 3 * 3 + 1;
    var r := DayNumber(c.year, q, 1);
    CivilYear(n);
    FirstOfMonth(c.year, q);
    MonthBegins(n);
    QuarterBegins(c.year, q, c.month);
    forall b | r < b <= n ensures !DayMark(Quarter, b) {
      SameYear(b, c.year, q, n);
      MonthsInOrder(r, b);
      MonthsInOrder(b, n);
    }
  }

  lemma QuarterBegins(y: int, q: int, m: int)
    requires 1 <= q <= m <= 12
    ensures DayNumber(y, q, 1) <= DayNumber(y, m, 1)
  {
    if q < m {
      MonthsIncrease(q, m, Leap(y));
    }
  }

  lemma WeekFloor(n: int)
    ensures TruncatedDay(Week, n) == n - (IsoWeekday(n) - 1)
    ensures IsDayFloor(Week, n, TruncatedDay(Week, n))
  {
    hide Week1Monday, IsoYear, IsoWeek;
    CountedFromWeek1(n);
    var r := n - (IsoWeekday(n) - 1);
    WeekdayRepeats(n, -(IsoWeekday(n) - 1));
    forall b | r < b <= n ensures IsoWeekday(b) != 1 {
      WeekdayRepeats(r, b - r);
    }
  }

  lemma {:induction false} WeekYearsIncrease(y: int, z: int)
    requires y < z
    ensures Week1Monday(y) < Week1Monday(z)
    decreases z - y
  {
    IsoYearLength(z - 1);
    if y < z - 1 {
      WeekYearsIncrease(y, z - 1);
    }
  }

  /** A day is before the first week of the next ISO year. */
  lemma BeforeNextWeekYear(n: int)
    ensures Week1Monday(IsoYear(n)) <= n < Week1Monday(IsoYear(n) + 1)
  {
    hide Week1Monday, YearStart;
    var y := IsoYear(n);
    FirstThursday(y + 1);
    CountedFromWeek1(n);
    var monday := n - (IsoWeekday(n) - 1);
    WeekdayRepeats(n, -(IsoWeekday(n) - 1));
    MondaysApart(monday, Week1Monday(y + 1));
  }

  lemma WeekYearFloor(n: int)
    ensures IsDayFloor(WeekYear, n, TruncatedDay(WeekYear, n))
  {
    hide Week1Monday, IsoYear;
    var y := IsoYear(n);
    var r := Week1Monday(y);
    BeforeNextWeekYear(n);
    Week1InOwnYear(y);
    forall b | r < b <= n ensures b != Week1Monday(IsoYear(b)) {
      var z := IsoYear(b);
      if z < y {
        WeekYearsIncrease(z, y);
      } else if z > y + 1 {
        WeekYearsIncrease(y + 1, z);
      }
    }
  }

  lemma Week1InOwnYear(y: int)
    ensures IsoYear(Week1Monday(y)) == y
  {
    FirstThursday(y);
    YearLength(y);
    YearIs(Week1Monday(y) + 3, y);
  }

  /**
   * Each date truncation is a floor, exactly if the year is not negative or, for the units of several years, a
   * multiple: Go rounds negative years up.
   */
  lemma DayFloorExactly(u: Unit, n: int)
    ensures IsDayFloor(u, n, TruncatedDay(u, n)) <==> YearOf(n) >= 0 || YearOf(n) % YearsIn(u) == 0
  {
    match u {
      case WeekYear => WeekYearFloor(n);
      case Quarter => QuarterFloor(n);
      case Month => MonthFloor(n);
      case Week => WeekFloor(n);
      case Millennium | Century | Decade | Year => YearFloor(u, n);
      case _ =>
    }
  }

  // ---------------------------------------------------------------- instants

  const NANOS_PER_DAY := 86_400_000_000_000

  /** The length of a unit up to a day, in nanoseconds. */
  function Nanos(u: Unit): (k: int)
    ensures k > 0 && NANOS_PER_DAY % k == 0
  {
    match u
    case Hour => 3_600_000_000_000
    case Minute => 60_000_000_000
    case Second => 1_000_000_000
    case Millisecond => 1_000_000
    case Microsecond => 1_000
    case _ => NANOS_PER_DAY
  }

  /** The instants, in nanoseconds of local time, at which a unit begins. */
  predicate Mark(u: Unit, t: int) {
    t % Nanos(u) == 0 && (DateUnit(u) ==> DayMark(u, t / NANOS_PER_DAY))
  }

  ghost predicate IsFloor(u: Unit, t: int, r: int) {
    Mark(u, r) && r <= t && forall b | r < b <= t :: !Mark(u, b)
  }

  function Truncated(u: Unit, t: int): int {
    if DateUnit(u) then TruncatedDay(u, t / NANOS_PER_DAY) * NANOS_PER_DAY else t - t % Nanos(u)
  }

  /** The years for which truncation rounds down. */
  predicate RoundsYearDown(u: Unit, t: int) {
    YearOf(t / NANOS_PER_DAY) >= 0 || YearOf(t / NANOS_PER_DAY) % YearsIn(u) == 0
  }

  lemma DaysOfInstants(a: int, b: int)
    ensures a * NANOS_PER_DAY / NANOS_PER_DAY == a
    ensures a * NANOS_PER_DAY % NANOS_PER_DAY == 0
    ensures a * NANOS_PER_DAY <= b <==> a <= b / NANOS_PER_DAY
  {
  }

  lemma DateUnitFloors(u: Unit, t: int)
    requires DateUnit(u)
    ensures IsFloor(u, t, Truncated(u, t)) <==> IsDayFloor(u, t / NANOS_PER_DAY, TruncatedDay(u, t / NANOS_PER_DAY))
  {
    hide DayMark, TruncatedDay;
    var n := t / NANOS_PER_DAY;
    var d := TruncatedDay(u, n);
    var r := d * NANOS_PER_DAY;
    DaysOfInstants(d, t);
    if IsDayFloor(u, n, d) {
      forall b | r < b <= t ensures !Mark(u, b) {
        if b % NANOS_PER_DAY == 0 {
          assert b == b / NANOS_PER_DAY * NANOS_PER_DAY;
          assert d < b / NANOS_PER_DAY <= n;
        }
      }
    }
    if IsFloor(u, t, r) {
      forall b | d < b <= n ensures !DayMark(u, b) {
        DaysOfInstants(b, t);
        assert !Mark(u, b * NANOS_PER_DAY);
      }
    }
  }

  lemma TimeUnitFloors(u: Unit, t: int)
    requires !DateUnit(u)
    ensures IsFloor(u, t, Truncated(u, t))
  {
    var k := Nanos(u);
    var q := t / k;
    assert Truncated(u, t) == q * k;
    MultipleOf(q, k);
    forall b | q * k < b <= t ensures b % k != 0 {
      NoMultipleBetween(q * k, b, t, k);
    }
  }

  /** Truncation gives the last mark of the unit that is not after the input, exactly if the year rounds down. */
  lemma FloorExactly(u: Unit, t: int)
    ensures IsFloor(u, t, Truncated(u, t)) <==> !DateUnit(u) || RoundsYearDown(u, t)
  {
    if DateUnit(u) {
      DateUnitFloors(u, t);
      DayFloorExactly(u, t / NANOS_PER_DAY);
    } else {
      TimeUnitFloors(u, t);
    }
  }

  /** The decade of the year before year 0 is not floored: it begins after its input. */
  lemma DecadeBeforeYearZero()
    ensures TruncatedDay(Decade, YearStart(-5)) == YearStart(0) > YearStart(-5)
    ensures !IsDayFloor(Decade, YearStart(-5), TruncatedDay(Decade, YearStart(-5)))
  {
    YearStartsYear(-5);
    YearsIncrease(-5, 0);
    assert Quotient(-5, 10) == 0;
  }

  // ---------------------------------------------------------------- what follows for floors

  lemma FloorUnique(u: Unit, t: int, r: int, q: int)
    requires IsFloor(u, t, r) && IsFloor(u, t, q)
    ensures r == q
  {
    hide Mark;
  }

  lemma DivisionMonotone(a: int, b: int, k: int)
    requires k > 0 && a <= b
    ensures a / k <= b / k
  {
    if b / k < a / k {
      ProductsOrdered(k, b / k + 1, a / k);
    }
  }

  lemma QuotientMonotone(a: int, b: int, k: int)
    requires k > 0 && a <= b
    ensures Quotient(a, k) <= Quotient(b, k)
  {
    if a >= 0 {
      DivisionMonotone(a, b, k);
    } else if b < 0 {
      DivisionMonotone(-b, -a, k);
    } else {
      QuotientIs(0, k, 0);
      DivisionMonotone(0, -a, k);
      DivisionMonotone(0, b, k);
    }
  }

  lemma QuotientOfMultiple(q: int, k: int)
    requires k > 0
    ensures Quotient(q * k, k) == q
  {
    QuotientIs(q * k, k, q);
    QuotientIs(-(q * k), k, -q);
  }

  /** Rounding toward zero keeps the order, and rounds a rounded year to itself. */
  lemma YearsRound(u: Unit, a: int, b: int)
    requires a <= b
    ensures Quotient(a, YearsIn(u)) * YearsIn(u) <= Quotient(b, YearsIn(u)) * YearsIn(u)
    ensures Quotient(Quotient(b, YearsIn(u)) * YearsIn(u), YearsIn(u)) == Quotient(b, YearsIn(u))
  {
    hide Quotient, YearsIn;
    var k := YearsIn(u);
    QuotientMonotone(a, b, k);
    ProductsOrdered(k, Quotient(a, k), Quotient(b, k));
    QuotientOfMultiple(Quotient(b, k), k);
  }

  lemma LaterYear(a: int, b: int)
    requires a <= b
    ensures YearOf(a) <= YearOf(b)
  {
    if YearOf(b) < YearOf(a) {
      YearsFrom(YearOf(b) + 1, YearOf(a));
    }
  }

  /** The units of several years, floors or not. */
  lemma YearsIdempotentAndMonotone(u: Unit, a: int, b: int)
    requires a <= b && YearsIn(u) > 1
    ensures Truncated(u, a) <= Truncated(u, b)
    ensures Truncated(u, Truncated(u, b)) == Truncated(u, b)
  {
    hide YearStart, YearOf, Quotient;
    var y, z := YearOf(a / NANOS_PER_DAY), YearOf(b / NANOS_PER_DAY);
    LaterYear(a / NANOS_PER_DAY, b / NANOS_PER_DAY);
    YearsRound(u, y, z);
    YearsFrom(Quotient(y, YearsIn(u)) * YearsIn(u), Quotient(z, YearsIn(u)) * YearsIn(u));
    DaysOfInstants(TruncatedDay(u, b / NANOS_PER_DAY), b);
    YearStartsYear(Quotient(z, YearsIn(u)) * YearsIn(u));
  }

  /**
   * Truncating a truncated time changes nothing, and an earlier time is not truncated to a later one. That holds
   * of the years that are rounded up, too.
   */
  lemma TruncationIdempotentAndMonotone(u: Unit, a: int, b: int)
    requires a <= b
    ensures Truncated(u, a) <= Truncated(u, b)
    ensures Truncated(u, Truncated(u, b)) == Truncated(u, b)
  {
    hide Mark, Truncated;
    if YearsIn(u) > 1 {
      YearsIdempotentAndMonotone(u, a, b);
    } else {
      FloorExactly(u, a);
      FloorExactly(u, b);
      var r := Truncated(u, b);
      assert Mark(u, Truncated(u, a));
      FloorExactly(u, r);
      FloorUnique(u, r, r, Truncated(u, r));
    }
  }

  // ---------------------------------------------------------------- finer, then coarser

  /** fine comes before coarse from microseconds to days, and from there on to millennia or to week years. */
  predicate FinerThan(fine: Unit, coarse: Unit) {
    if coarse.Week? || coarse.WeekYear? then Depth(fine) <= 6 || fine.Week? || fine == coarse
    else !fine.Week? && !fine.WeekYear? && Depth(fine) <= Depth(coarse)
  }

  function Depth(u: Unit): nat {
    match u
    case Microsecond => 1
    case Millisecond => 2
    case Second => 3
    case Minute => 4
    case Hour => 5
    case Day => 6
    case Month => 7
    case Quarter => 8
    case Year => 9
    case Decade => 10
    case Century => 11
    case Millennium => 12
    case Week => 13
    case WeekYear => 14
  }

  lemma Divides(t: int, a: int, b: int)
    requires a > 0 && b > 0 && t % a == 0 && a % b == 0
    ensures t % b == 0
  {
    var p, q := t / a, a / b;
    assert t == p * a && a == q * b;
    assert p * q * b == p * (q * b);
    MultipleOf(p * q, b);
  }

  lemma YearMarksNest(fine: Unit, coarse: Unit, n: int)
    requires fine in {Year, Decade, Century, Millennium} && coarse in {Year, Decade, Century, Millennium}
    requires FinerThan(fine, coarse) && DayMark(coarse, n)
    ensures DayMark(fine, n)
  {
    Divides(YearOf(n), YearsIn(coarse), YearsIn(fine));
  }

  lemma DayMarksNest(fine: Unit, coarse: Unit, n: int)
    requires DateUnit(fine) && FinerThan(fine, coarse) && DayMark(coarse, n)
    ensures DayMark(fine, n)
  {
    if coarse.WeekYear? {
      FirstThursday(IsoYear(n));
    } else if coarse in {Year, Decade, Century, Millennium} {
      if fine in {Year, Decade, Century, Millennium} {
        YearMarksNest(fine, coarse, n);
      } else {
        FirstOfMonth(YearOf(n), 1);
      }
    }
  }

  lemma NanosDivide(fine: Unit, coarse: Unit)
    requires FinerThan(fine, coarse)
    ensures Nanos(coarse) % Nanos(fine) == 0
  {
  }

  /** Where a coarse unit begins, a finer one begins too. */
  lemma MarksNest(fine: Unit, coarse: Unit, t: int)
    requires FinerThan(fine, coarse) && Mark(coarse, t)
    ensures Mark(fine, t)
  {
    hide Nanos, DayMark;
    NanosDivide(fine, coarse);
    Divides(t, Nanos(coarse), Nanos(fine));
    if DateUnit(fine) {
      DayMarksNest(fine, coarse, t / NANOS_PER_DAY);
    }
  }

  /** Truncating to a year or less stays in the year. */
  lemma TruncatedYear(u: Unit, t: int)
    requires FinerThan(u, Year)
    ensures YearOf(Truncated(u, t) / NANOS_PER_DAY) == YearOf(t / NANOS_PER_DAY)
  {
    hide Truncated, YearOf, YearStart;
    var n := t / NANOS_PER_DAY;
    var d := YearStart(YearOf(n));
    YearStartsYear(YearOf(n));
    DaysOfInstants(d, t);
    MarksNest(u, Year, d * NANOS_PER_DAY);
    FloorExactly(u, t);
    var r := Truncated(u, t);
    assert d <= n by {
      YearBegan(n);
    }
    assert d * NANOS_PER_DAY <= r <= t;
    DaysOfInstants(d, r);
    LaterYear(d, r / NANOS_PER_DAY);
    LaterYear(r / NANOS_PER_DAY, n);
  }

  lemma YearBegan(n: int)
    ensures YearStart(YearOf(n)) <= n
  {
  }

  /** Rounding a natural number down in steps of k, and then in steps of m times k. */
  lemma NaturalRoundsTwice(y: int, k: int, m: int)
    requires y >= 0 && k > 0 && m > 0
    ensures y / k * k / (k * m) == y / (k * m)
  {
    var n, q := k * m, y / (k * m);
    assert n * q <= y < n * q + n;
    assert n * q == k * (m * q);
    if y / k < m * q {
      ProductsOrdered(k, y / k + 1, m * q);
    }
    ProductsOrdered(k, m * q, y / k);
    QuotientIs(y / k * k, n, q);
  }

  lemma QuotientFlips(a: int, k: int)
    requires k > 0
    ensures Quotient(-a, k) == -Quotient(a, k)
  {
    if a == 0 {
      QuotientIs(0, k, 0);
    }
  }

  lemma RoundsTwice(y: int, k: int, m: int)
    requires k > 0 && m > 0
    ensures k * m > 0 && Quotient(Quotient(y, k) * k, k * m) == Quotient(y, k * m)
    decreases y < 0
  {
    if y >= 0 {
      NaturalRoundsTwice(y, k, m);
    } else {
      hide Quotient;
      RoundsTwice(-y, k, m);
      var z := Quotient(-y, k);
      QuotientFlips(y, k);
      QuotientFlips(y, k * m);
      QuotientFlips(z * k, k * m);
      assert Quotient(y, k) * k == -(z * k);
    }
  }

  /** Rounding to a shorter unit of years first makes no difference. */
  lemma YearsRoundTwice(fine: Unit, coarse: Unit, y: int)
    requires FinerThan(fine, coarse) && YearsIn(fine) > 1
    ensures Quotient(Quotient(y, YearsIn(fine)) * YearsIn(fine), YearsIn(coarse)) == Quotient(y, YearsIn(coarse))
  {
    hide Quotient;
    match (fine, coarse)
    case (Century, Millennium) => RoundsTwice(y, 100, 10);
    case (Decade, Millennium) => RoundsTwice(y, 10, 100);
    case (Decade, Century) => RoundsTwice(y, 10, 10);
    case _ => YearsRound(fine, y, y);
  }

  /** Truncating to a finer unit first makes no difference. */
  lemma FinerFirst(fine: Unit, coarse: Unit, t: int)
    requires FinerThan(fine, coarse)
    ensures Truncated(coarse, Truncated(fine, t)) == Truncated(coarse, t)
  {
    hide Mark, Truncated, FinerThan, YearsIn;
    if YearsIn(coarse) > 1 {
      FinerYears(fine, coarse, t);
    } else {
      FinerFloors(fine, coarse, t);
    }
  }

  lemma FinerFloors(fine: Unit, coarse: Unit, t: int)
    requires FinerThan(fine, coarse) && YearsIn(coarse) <= 1
    ensures Truncated(coarse, Truncated(fine, t)) == Truncated(coarse, t)
  {
    hide Mark, Truncated;
    FloorExactly(fine, t);
    FloorExactly(coarse, t);
    var r, q := Truncated(fine, t), Truncated(coarse, t);
    MarksNest(fine, coarse, q);
    assert q <= r;
    assert IsFloor(coarse, r, q);
    FloorExactly(coarse, r);
    FloorUnique(coarse, r, q, Truncated(coarse, r));
  }

  lemma FinerYears(fine: Unit, coarse: Unit, t: int)
    requires FinerThan(fine, coarse) && YearsIn(coarse) > 1
    ensures Truncated(coarse, Truncated(fine, t)) == Truncated(coarse, t)
  {
    hide YearStart, YearOf, Quotient;
    if YearsIn(fine) > 1 {
      var y := YearOf(t / NANOS_PER_DAY);
      DaysOfInstants(TruncatedDay(fine, t / NANOS_PER_DAY), t);
      YearStartsYear(Quotient(y, YearsIn(fine)) * YearsIn(fine));
      YearsRoundTwice(fine, coarse, y);
    } else {
      TruncatedYear(fine, t);
    }
  }

  // ---------------------------------------------------------------- the fields of a temporal value

  /** The entries of a temporal map that truncation reads and writes. */
  datatype Fields = Fields(year: Option<int>, month: Option<int>, day: Option<int>, hour: Option<int>,
                           minute: Option<int>, second: Option<int>, nanosecond: Option<int>)

  function OrElse(o: Option<int>, default: int): int {
    if o.Some? then o.value else default
  }

  /** The instant of a day and a time. */
  function Clock(days: int, h: int, m: int, s: int, ns: int): int {
    days * NANOS_PER_DAY + ((h * 60 + m) * 60 + s) * 1_000_000_000 + ns
  }

  /** time.Date: fields beyond their range run on into the next larger one. */
  function InstantOf(year: int, month: int, day: int, hour: int, minute: int, second: int, nanosecond: int): int
    requires 1 <= month <= 12
  {
    Clock(DayNumber(year, month, day), hour, minute, second, nanosecond)
  }

  /** Missing fields have defaults; the year's is 1970. A month or day out of range gives no time. */
  function TemporalDateTime(f: Fields): Option<int> {
    var month, day := OrElse(f.month, 1), OrElse(f.day, 1);
    if month < 1 || month > 12 || day < 1 || day > 31 then None
    else Some(InstantOf(OrElse(f.year, 1970), month, day, OrElse(f.hour, 0), OrElse(f.minute, 0), OrElse(f.second, 0),
                        OrElse(f.nanosecond, 0)))
  }

  function FieldsOf(t: int): Fields {
    var d, ns := Civil(t / NANOS_PER_DAY), t % NANOS_PER_DAY;
    Fields(Some(d.year), Some(d.month), Some(d.day), Some(ns / 3_600_000_000_000), Some(ns / 60_000_000_000 % 60),
           Some(ns / 1_000_000_000 % 60), Some(ns % 1_000_000_000))
  }

  lemma FieldsOfMidnight(n: int)
    ensures var d := Civil(n);
            FieldsOf(n * NANOS_PER_DAY)
            == Fields(Some(d.year), Some(d.month), Some(d.day), Some(0), Some(0), Some(0), Some(0))
    ensures TemporalDateTime(FieldsOf(n * NANOS_PER_DAY)) == Some(n * NANOS_PER_DAY)
  {
    hide Civil, DayNumber;
    DaysOfInstants(n, n);
    var t := n * NANOS_PER_DAY;
    assert t / NANOS_PER_DAY == n && t % NANOS_PER_DAY == 0;
  }

  /** Without overrides. */
  method ApplyTruncation(src: Fields, u: Unit) returns (out: Fields)
    ensures DateUnit(u) ==> out == if TemporalDateTime(src).None? then src
                                   else FieldsOf(Truncated(u, TemporalDateTime(src).value))
    ensures !DateUnit(u) ==> out == TruncatedTime(src, u)
  {
    out := src;
    if DateUnit(u) {
      var t := TemporalDateTime(src);
      if t.None? {
        return;
      }
      var day := TruncateDate(u, t.value / NANOS_PER_DAY);
      FieldsOfMidnight(day);
      var d := Civil(day);
      out := Fields(Some(d.year), Some(d.month), Some(d.day), Some(0), Some(0), Some(0), Some(0));
    } else {
      if u.Hour? {
        out := out.(minute := Some(0));
      }
      if u.Hour? || u.Minute? {
        out := out.(second := Some(0));
      }
      var n := OrElse(out.nanosecond, 0);
      out := out.(nanosecond := Some(if u.Millisecond? then Quotient(n, 1_000_000) * 1_000_000
                                     else if u.Microsecond? then Quotient(n, 1_000) * 1_000
                                     else 0));
    }
  }

  function TruncatedTime(f: Fields, u: Unit): Fields {
    var n := OrElse(f.nanosecond, 0);
    match u
    case Hour => f.(minute := Some(0), second := Some(0), nanosecond := Some(0))
    case Minute => f.(second := Some(0), nanosecond := Some(0))
    case Second => f.(nanosecond := Some(0))
    case Millisecond => f.(nanosecond := Some(Quotient(n, 1_000_000) * 1_000_000))
    case Microsecond => f.(nanosecond := Some(Quotient(n, 1_000) * 1_000))
    case _ => f
  }

  /** Minutes, seconds and nanoseconds within their ranges. */
  predicate InRange(f: Fields) {
    0 <= OrElse(f.minute, 0) < 60 && 0 <= OrElse(f.second, 0) < 60 && 0 <= OrElse(f.nanosecond, 0) < 1_000_000_000
  }

  lemma CutsTo(t: int, u: Unit, q: int, rest: int)
    requires !DateUnit(u) && t == q * Nanos(u) + rest && 0 <= rest < Nanos(u)
    ensures Truncated(u, t) == q * Nanos(u)
  {
    QuotientIs(t, Nanos(u), q);
  }

  lemma ClockTruncates(n: int, h: int, m: int, s: int, ns: int)
    requires 0 <= m < 60 && 0 <= s < 60 && 0 <= ns < 1_000_000_000
    ensures Truncated(Hour, Clock(n, h, m, s, ns)) == Clock(n, h, 0, 0, 0)
    ensures Truncated(Minute, Clock(n, h, m, s, ns)) == Clock(n, h, m, 0, 0)
    ensures Truncated(Second, Clock(n, h, m, s, ns)) == Clock(n, h, m, s, 0)
  {
    hide Truncated;
    var t, hours := Clock(n, h, m, s, ns), n * 24 + h;
    CutsTo(t, Hour, hours, (m * 60 + s) * 1_000_000_000 + ns);
    CutsTo(t, Minute, hours * 60 + m, s * 1_000_000_000 + ns);
    CutsTo(t, Second, (hours * 60 + m) * 60 + s, ns);
  }

  lemma NanosTruncate(n: int, h: int, m: int, s: int, ns: int)
    requires 0 <= ns < 1_000_000_000
    ensures Truncated(Millisecond, Clock(n, h, m, s, ns)) == Clock(n, h, m, s, ns / 1_000_000 * 1_000_000)
    ensures Truncated(Microsecond, Clock(n, h, m, s, ns)) == Clock(n, h, m, s, ns / 1_000 * 1_000)
  {
    hide Truncated;
    var t, seconds := Clock(n, h, m, s, ns), ((n * 24 + h) * 60 + m) * 60 + s;
    CutsTo(t, Millisecond, seconds * 1_000 + ns / 1_000_000, ns % 1_000_000);
    CutsTo(t, Microsecond, seconds * 1_000_000 + ns / 1_000, ns % 1_000);
  }

  /** Cutting off the smaller fields is truncation of the instant. */
  lemma TimeFieldsTruncate(f: Fields, u: Unit)
    requires !DateUnit(u) && InRange(f) && TemporalDateTime(f).Some?
    ensures TemporalDateTime(TruncatedTime(f, u)) == Some(Truncated(u, TemporalDateTime(f).value))
  {
    hide DayNumber, Truncated, Clock;
    var n := DayNumber(OrElse(f.year, 1970), OrElse(f.month, 1), OrElse(f.day, 1));
    var h, m, s, ns := OrElse(f.hour, 0), OrElse(f.minute, 0), OrElse(f.second, 0), OrElse(f.nanosecond, 0);
    ClockTruncates(n, h, m, s, ns);
    NanosTruncate(n, h, m, s, ns);
  }

  /** What truncation leaves in the map is the truncated time, for every unit. */
  lemma FieldsTruncate(f: Fields, u: Unit, out: Fields)
    requires InRange(f) && TemporalDateTime(f).Some?
    requires out == if DateUnit(u) then FieldsOf(Truncated(u, TemporalDateTime(f).value)) else TruncatedTime(f, u)
    ensures TemporalDateTime(out) == Some(Truncated(u, TemporalDateTime(f).value))
  {
    if DateUnit(u) {
      FieldsOfMidnight(TruncatedDay(u, TemporalDateTime(f).value / NANOS_PER_DAY));
    } else {
      TimeFieldsTruncate(f, u);
    }
  }
}
