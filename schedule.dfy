/** The schedule predicates of `pydwt/core/schedule.py`: whether a task runs on a given
    date. Dates are proleptic Gregorian, `weekday` 0 is Monday, and the month calendar is
    the one Python's default `Calendar` builds: full Monday-first weeks that spill over
    into the neighbouring months. */
module Schedule {
  import opened Common

  // ---------------------------------------------------------------- calendar

  datatype Date = Date(year: int, month: int, day: int)

  predicate IsLeap(y: int) {
    y % 4 == 0 && (y % 100 != 0 || y % 400 == 0)
  }

  function DaysInMonth(y: int, m: int): (n: int)
    requires 1 <= m <= 12
    ensures 28 <= n <= 31
  {
    if m == 2 then (if IsLeap(y) then 29 else 28)
    else if m == 4 || m == 6 || m == 9 || m == 11 then 30
    else 31
  }

  /** A date that Python's `datetime.date` accepts (years above 9999 aside). */
  predicate ValidDate(d: Date) {
    d.year >= 1 && 1 <= d.month <= 12 && 1 <= d.day <= DaysInMonth(d.year, d.month)
  }

  function YearDays(y: int): int {
    if IsLeap(y) then 366 else 365
  }

  /** Days before January 1st of year y, counted on year by year; `DaysBeforeYearFormula`
      gives the closed form `datetime` computes it by. */
  function DaysBeforeYear(y: int): int
    requires y >= 1
  {
    if y == 1 then 0 else DaysBeforeYear(y - 1) + YearDays(y - 1)
  }

  /** Days of the year before the first of month `m`, as the cumulative table in
      Python's `datetime` module. */
  function DaysBeforeMonth(y: int, m: int): int
    requires 1 <= m <= 12
  {
    var before :=
      if m == 1 then 0 else if m == 2 then 31 else if m == 3 then 59 else if m == 4 then 90
      else if m == 5 then 120 else if m == 6 then 151 else if m == 7 then 181
      else if m == 8 then 212 else if m == 9 then 243 else if m == 10 then 273
      else if m == 11 then 304 else 334;
    before + (if m > 2 && IsLeap(y) then 1 else 0)
  }

  /** `date.toordinal()`: 0001-01-01 is day 1. */
  function Ordinal(d: Date): int
    requires ValidDate(d)
  {
    DaysBeforeYear(d.year) + DaysBeforeMonth(d.year, d.month) + d.day
  }

  /** The weekday of January 1st of year y (0 is Monday, 6 is Sunday): 0001-01-01 was a
      Monday, every year moves it on by its length, and 400 years are a whole number of
      weeks (`FourCenturies`). `YearStartIsOrdinal` ties it to `date.toordinal()`. */
  function YearStart(y: int): (w: int)
    requires y >= 1
    ensures 0 <= w < 7
  {
    if y > 400 then YearStart(y - 400)
    else if y == 1 then 0
    else (YearStart(y - 1) + YearDays(y - 1)) % 7
  }

  /** The weekday of the 1st of a month. */
  function FirstWeekday(y: int, m: int): (w: int)
    requires y >= 1 && 1 <= m <= 12
    ensures 0 <= w < 7
  {
    (YearStart(y) + DaysBeforeMonth(y, m)) % 7
  }

  /** `date.weekday()`, counted on from the weekday of the 1st of its month. */
  function Weekday(d: Date): (w: int)
    requires ValidDate(d)
    ensures 0 <= w < 7
  {
    (FirstWeekday(d.year, d.month) + d.day - 1) % 7
  }

  lemma ModSeven(x: int, k: int)
    ensures (x % 7 + k) % 7 == (x + k) % 7
  {
    var q := x / 7;
    assert x == 7 * q + x % 7;
    assert x + k == 7 * q + (x % 7 + k);
  }

  /** `date.weekday()` is `(date.toordinal() + 6) % 7`. */
  lemma WeekdayIsOrdinal(d: Date)
    requires ValidDate(d)
    ensures Weekday(d) == (Ordinal(d) + 6) % 7
  {
    var first := Ordinal(Date(d.year, d.month, 1));
    FirstWeekdayIsOrdinal(d.year, d.month);
    assert Ordinal(d) == first + d.day - 1;
    ModSeven(first + 6, d.day - 1);
  }

  lemma FirstWeekdayIsOrdinal(y: int, m: int)
    requires y >= 1 && 1 <= m <= 12
    ensures FirstWeekday(y, m) == (Ordinal(Date(y, m, 1)) + 6) % 7
  {
    var dby, dbm := DaysBeforeYear(y), DaysBeforeMonth(y, m);
    YearStartIsOrdinal(y);
    ModSeven(dby, dbm);
    assert Ordinal(Date(y, m, 1)) + 6 == (dby + dbm) + 7;
    WeekLater(dby + dbm);
  }

  /** January 1st of year y is day `DaysBeforeYear(y) + 1`, and day 1 was a Monday. */
  lemma {:induction false} YearStartIsOrdinal(y: int)
    requires y >= 1
    ensures YearStart(y) == DaysBeforeYear(y) % 7
    decreases y
  {
    if y > 400 {
      YearStartIsOrdinal(y - 400);
      FourCenturies(y);
      AddWeeks(DaysBeforeYear(y - 400), 20871);
    } else if y > 1 {
      YearStartIsOrdinal(y - 1);
      ModSeven(DaysBeforeYear(y - 1), YearDays(y - 1));
    }
  }

  /** 400 Gregorian years hold 97 leap years: 146097 days. */
  lemma FourCenturies(y: int)
    requires y > 400
    ensures DaysBeforeYear(y) == DaysBeforeYear(y - 400) + 146097
  {
    var p := y - 1;
    DaysBeforeYearFormula(y);
    DaysBeforeYearFormula(y - 400);
    assert p / 4 == (p - 400) / 4 + 100;
    assert p / 100 == (p - 400) / 100 + 4;
    assert p / 400 == (p - 400) / 400 + 1;
  }

  /** January 1st of the next year follows on by the length of this one. */
  lemma YearStartStep(y: int)
    requires y >= 1
    ensures YearStart(y + 1) == (YearStart(y) + YearDays(y)) % 7
  {
    YearStartIsOrdinal(y);
    YearStartIsOrdinal(y + 1);
    ModSeven(DaysBeforeYear(y), YearDays(y));
  }

  /** Within one month the weekday advances by one per day. */
  lemma WeekdayInMonth(y: int, m: int, d: int)
    requires y >= 1 && 1 <= m <= 12 && 1 <= d <= DaysInMonth(y, m)
    ensures Weekday(Date(y, m, d)) == (Weekday(Date(y, m, 1)) + d - 1) % 7
  {
    var f := FirstWeekday(y, m);
    assert Weekday(Date(y, m, 1)) == f by { ModSmall(f); }
  }

  function PrevMonth(y: int, m: int): (r: (int, int))
    requires 1 <= m <= 12
    ensures 1 <= r.1 <= 12 && r.1 != m
  {
    if m == 1 then (y - 1, 12) else (y, m - 1)
  }

  function NextMonth(y: int, m: int): (r: (int, int))
    requires 1 <= m <= 12
    ensures 1 <= r.1 <= 12 && r.1 != m && r.0 >= y
  {
    if m == 12 then (y + 1, 1) else (y, m + 1)
  }

  /** The dates of month `m` of year `y`, in order. */
  function MonthDays(y: int, m: int): (r: seq<Date>)
    requires 1 <= m <= 12
    ensures |r| == DaysInMonth(y, m)
    ensures forall i :: 0 <= i < |r| ==> r[i] == Date(y, m, i + 1)
  {
    seq(DaysInMonth(y, m), i requires 0 <= i < DaysInMonth(y, m) => Date(y, m, i + 1))
  }

  /** The days of the previous month that fill the first week up from its Monday. */
  function LeadingDays(y: int, m: int): (r: seq<Date>)
    requires y >= 1 && 1 <= m <= 12
    ensures |r| == Weekday(Date(y, m, 1))
    ensures forall i :: 0 <= i < |r| ==> ValidDate(r[i]) && r[i].month != m
  {
    var k := Weekday(Date(y, m, 1));
    var (py, pm) := PrevMonth(y, m);
    var pd := DaysInMonth(py, pm);
    // 0001-01-01 was a Monday: no earlier month is needed to fill its week.
    seq(k, i requires 0 <= i < k => Date(py, pm, pd - k + 1 + i))
  }

  /** The days of the next month that fill the last week up to its Sunday. */
  function TrailingDays(y: int, m: int): (r: seq<Date>)
    requires y >= 1 && 1 <= m <= 12
    ensures |r| == 6 - Weekday(Date(y, m, DaysInMonth(y, m)))
    ensures forall i :: 0 <= i < |r| ==> ValidDate(r[i]) && r[i].month != m
  {
    var t := 6 - Weekday(Date(y, m, DaysInMonth(y, m)));
    var (ny, nm) := NextMonth(y, m);
    seq(t, i requires 0 <= i < t => Date(ny, nm, i + 1))
  }

  /** The dates `monthdatescalendar` lists, week after week. */
  function CalendarDates(y: int, m: int): (r: seq<Date>)
    requires y >= 1 && 1 <= m <= 12
    ensures |r| % 7 == 0 && |r| >= 28
    ensures forall i :: 0 <= i < |r| ==> ValidDate(r[i])
  {
    CalendarLength(y, m);
    LeadingDays(y, m) + MonthDays(y, m) + TrailingDays(y, m)
  }

  /** Leading days, the month and trailing days fill whole weeks. */
  lemma CalendarLength(y: int, m: int)
    requires y >= 1 && 1 <= m <= 12
    ensures var n := Weekday(Date(y, m, 1)) + DaysInMonth(y, m) + 6 - Weekday(Date(y, m, DaysInMonth(y, m)));
            n % 7 == 0 && n >= 28
  {
    var dim := DaysInMonth(y, m);
    var k0 := Weekday(Date(y, m, 1));
    var wl := Weekday(Date(y, m, dim));
    WeekdayInMonth(y, m, dim);
    var q := (k0 + dim - 1) / 7;
    assert k0 + dim - 1 == 7 * q + wl;
    assert k0 + dim + 6 - wl == 7 * (q + 1);
    DivSeven(q + 1, 0);
  }

  /** Splits a list into consecutive slices of seven. */
  function Weeks(ds: seq<Date>): (r: seq<seq<Date>>)
    requires |ds| % 7 == 0
    ensures |r| == |ds| / 7
    ensures forall k :: 0 <= k < |r| ==> r[k] == ds[7 * k..7 * k + 7]
  {
    if ds == [] then [] else [ds[..7]] + Weeks(ds[7..])
  }

  /** `Calendar().monthdatescalendar(y, m)`: the month as a list of Monday-first weeks. */
  function MonthDatesCalendar(y: int, m: int): (r: seq<seq<Date>>)
    requires y >= 1 && 1 <= m <= 12
    ensures |r| >= 4
    ensures forall k :: 0 <= k < |r| ==> |r[k]| == 7
  {
    Weeks(CalendarDates(y, m))
  }

  function Flatten(weeks: seq<seq<Date>>): seq<Date> {
    if weeks == [] then [] else weeks[0] + Flatten(weeks[1..])
  }

  lemma {:induction false} FlattenWeeks(ds: seq<Date>)
    requires |ds| % 7 == 0
    ensures Flatten(Weeks(ds)) == ds
    decreases |ds|
  {
    if ds != [] {
      FlattenWeeks(ds[7..]);
      assert Weeks(ds) == [ds[..7]] + Weeks(ds[7..]);
      assert Weeks(ds)[1..] == Weeks(ds[7..]);
    }
  }

  // ---------------------------------------------------- list comprehensions

  predicate AllValid(ds: seq<Date>) {
    forall i :: 0 <= i < |ds| ==> ValidDate(ds[i])
  }

  /** `[d for d in ds if d.weekday() == w and d.month == month]` */
  function WithWeekday(ds: seq<Date>, w: int, month: int): (r: seq<Date>)
    requires AllValid(ds)
    ensures |r| <= |ds|
  {
    if ds == [] then []
    else (if Weekday(ds[0]) == w && ds[0].month == month then [ds[0]] else [])
         + WithWeekday(ds[1..], w, month)
  }

  /** `[d for d in ds if d.weekday() not in [5, 6] and d.month == month]` */
  function OpenDays(ds: seq<Date>, month: int): (r: seq<Date>)
    requires AllValid(ds)
    ensures |r| <= |ds|
  {
    if ds == [] then []
    else (if Weekday(ds[0]) < 5 && ds[0].month == month then [ds[0]] else [])
         + OpenDays(ds[1..], month)
  }

  /** `xs[::2]` */
  function EveryOther(xs: seq<Date>): (r: seq<Date>)
    ensures |r| == (|xs| + 1) / 2
    ensures forall k :: 0 <= k < |r| ==> r[k] == xs[2 * k]
  {
    if |xs| <= 1 then xs else [xs[0]] + EveryOther(xs[2..])
  }

  // ------------------------------------------------------------- schedules

  /** The schedule classes; `weekday` defaults to 0 in the source. */
  datatype Schedule =
    | Daily
    | Weekly(weekday: int)
    | SemiMonthly(weekday: int)
    | Monthly(weekday: int)
    | MonthlyLastOpenDayInMonth

  /** `type(schedule).__name__` */
  function ClassName(s: Schedule): string {
    match s
    case Daily => "Daily"
    case Weekly(_) => "Weekly"
    case SemiMonthly(_) => "SemiMonthly"
    case Monthly(_) => "Monthly"
    case MonthlyLastOpenDayInMonth => "MonthlyLastOpenDayInMonth"
  }

  /** `Weekly(w).is_scheduled(date)` */
  function WeeklyScheduled(w: int, date: Date): bool
    requires ValidDate(date)
  {
    w == Weekday(date)
  }

  /** `SemiMonthly(w).is_scheduled(date)`: the month's dates on weekday w, every other
      one of them. */
  function SemiMonthlyScheduled(w: int, date: Date): bool
    requires ValidDate(date)
  {
    var weeks := MonthDatesCalendar(date.year, date.month);
    FlattenWeeks(CalendarDates(date.year, date.month));
    date in EveryOther(WithWeekday(Flatten(weeks), w, date.month))
  }

  /** `Monthly(w).is_scheduled(date)`: the first of the month's dates on weekday w; with
      none (w outside 0..6) indexing the empty list raises. */
  function MonthlyScheduled(w: int, date: Date): Result<bool>
    requires ValidDate(date)
  {
    var weeks := MonthDatesCalendar(date.year, date.month);
    FlattenWeeks(CalendarDates(date.year, date.month));
    var found := WithWeekday(Flatten(weeks), w, date.month);
    if |found| == 0 then Raised(IndexError) else Ok(date == found[0])
  }

  /** `MonthlyLastOpenDayInMonth().is_scheduled(date)`: the last Monday-to-Friday date of
      the month within the calendar's last week; with none, indexing raises. */
  function LastOpenDayScheduled(date: Date): Result<bool>
    requires ValidDate(date)
  {
    var weeks := MonthDatesCalendar(date.year, date.month);
    var open := OpenDays(weeks[|weeks| - 1], date.month);
    if |open| == 0 then Raised(IndexError) else Ok(date == open[|open| - 1])
  }

  /** `schedule.is_scheduled(date)`, dispatched on the schedule's class. */
  function IsScheduled(s: Schedule, date: Date): Result<bool>
    requires ValidDate(date)
  {
    match s
    case Daily => Ok(true)
    case Weekly(w) => Ok(WeeklyScheduled(w, date))
    case SemiMonthly(w) => Ok(SemiMonthlyScheduled(w, date))
    case Monthly(w) => MonthlyScheduled(w, date)
    case MonthlyLastOpenDayInMonth => LastOpenDayScheduled(date)
  }

  // ------------------------------------------------------- calendar lemmas

  /** The first day of the next month follows the last day of this one, also across a
      year boundary. */
  lemma OrdinalNextMonth(y: int, m: int)
    requires y >= 1 && 1 <= m <= 12
    ensures var (ny, nm) := NextMonth(y, m);
            Ordinal(Date(ny, nm, 1)) == Ordinal(Date(y, m, 1)) + DaysInMonth(y, m)
  {
    if m == 12 {
      assert Ordinal(Date(y + 1, 1, 1)) == DaysBeforeYear(y + 1) + 1;
      assert Ordinal(Date(y, 12, 31)) == DaysBeforeYear(y) + 334 + (if IsLeap(y) then 1 else 0) + 31;
    } else {
      assert DaysBeforeMonth(y, m + 1) == DaysBeforeMonth(y, m) + DaysInMonth(y, m);
    }
  }

  /** `_days_before_year` of Python's `datetime`: 365 days a year plus one per leap year,
      the leap years being the multiples of 4 but not of 100, and those of 400. */
  lemma {:induction false} DaysBeforeYearFormula(y: int)
    requires y >= 1
    ensures var p := y - 1; DaysBeforeYear(y) == p * 365 + p / 4 - p / 100 + p / 400
  {
    if y > 1 {
      var p := y - 1;
      DaysBeforeYearFormula(y - 1);
      DivStep(p, 4);
      DivStep(p, 100);
      DivStep(p, 400);
      CenturyDivisibility(p);
      CenturyLeap(p);
      assert DaysBeforeYear(y) == DaysBeforeYear(p) + (if IsLeap(p) then 366 else 365);
    }
  }

  /** A multiple of 400 is one of 100. */
  lemma CenturyDivisibility(y: int)
    ensures y % 400 == 0 ==> y % 100 == 0
  {
    if y % 400 == 0 {
      var q := y / 400;
      assert y == 100 * (4 * q);
    }
  }

  /** A multiple of 100 is one of 4. */
  lemma CenturyLeap(y: int)
    ensures y % 100 == 0 ==> y % 4 == 0
  {
    if y % 100 == 0 {
      var q := y / 100;
      assert y == 4 * (25 * q);
    }
  }

  /** Counting multiples of d up to y: one more than up to y - 1 exactly when y is one. */
  lemma DivStep(y: int, d: int)
    requires y >= 1 && d in {4, 100, 400}
    ensures y / d - (y - 1) / d == (if y % d == 0 then 1 else 0)
  {
    if d == 4 {
      var q, r := (y - 1) / 4, (y - 1) % 4;
      assert y - 1 == 4 * q + r;
      if r == 3 {
        assert y == 4 * (q + 1);
      } else {
        assert y == 4 * q + (r + 1);
      }
    } else if d == 100 {
      var q, r := (y - 1) / 100, (y - 1) % 100;
      assert y - 1 == 100 * q + r;
      if r == 99 {
        assert y == 100 * (q + 1);
      } else {
        assert y == 100 * q + (r + 1);
      }
    } else {
      var q, r := (y - 1) / 400, (y - 1) % 400;
      assert y - 1 == 400 * q + r;
      if r == 399 {
        assert y == 400 * (q + 1);
      } else {
        assert y == 400 * q + (r + 1);
      }
    }
  }

  lemma ModCongruent(a: int, b: int, k: int)
    requires a % 7 == b % 7
    ensures (a + k) % 7 == (b + k) % 7
  {
    ModSeven(a, k);
    ModSeven(b, k);
  }

  /** The weekday of the first of the next month follows that of the last of this one. */
  lemma WeekdayNextMonth(y: int, m: int)
    requires y >= 1 && 1 <= m <= 12
    ensures var (ny, nm) := NextMonth(y, m);
            Weekday(Date(ny, nm, 1)) == (Weekday(Date(y, m, DaysInMonth(y, m))) + 1) % 7
  {
    var (ny, nm) := NextMonth(y, m);
    var x, dim := YearStart(y) + DaysBeforeMonth(y, m), DaysInMonth(y, m);
    assert Weekday(Date(y, m, dim)) == (x % 7 + dim - 1) % 7;
    FirstWeekdayNext(y, m);
    assert Weekday(Date(ny, nm, 1)) == FirstWeekday(ny, nm) by {
      ModSmall(FirstWeekday(ny, nm));
    }
    NextArith(x, dim);
  }

  /** The 1st of the next month is `DaysInMonth` days on from the 1st of this one. */
  lemma FirstWeekdayNext(y: int, m: int)
    requires y >= 1 && 1 <= m <= 12
    ensures FirstWeekday(NextMonth(y, m).0, NextMonth(y, m).1)
            == (YearStart(y) + DaysBeforeMonth(y, m) + DaysInMonth(y, m)) % 7
  {
    if m == 12 {
      assert NextMonth(y, m) == (y + 1, 1);
      FirstWeekdayNewYear(y);
    } else {
      assert NextMonth(y, m) == (y, m + 1);
      FirstWeekdaySameYear(y, m);
    }
  }

  lemma FirstWeekdayNewYear(y: int)
    requires y >= 1
    ensures FirstWeekday(y + 1, 1) == (YearStart(y) + DaysBeforeMonth(y, 12) + DaysInMonth(y, 12)) % 7
  {
    var next := YearStart(y + 1);
    YearStartStep(y);
    assert DaysBeforeMonth(y, 12) + DaysInMonth(y, 12) == YearDays(y);
    assert FirstWeekday(y + 1, 1) == next by {
      assert DaysBeforeMonth(y + 1, 1) == 0;
      ModSmall(next);
    }
  }

  lemma FirstWeekdaySameYear(y: int, m: int)
    requires y >= 1 && 1 <= m < 12
    ensures FirstWeekday(y, m + 1) == (YearStart(y) + DaysBeforeMonth(y, m) + DaysInMonth(y, m)) % 7
  {
    assert DaysBeforeMonth(y, m + 1) == DaysBeforeMonth(y, m) + DaysInMonth(y, m);
  }

  lemma ModSmall(v: int)
    requires 0 <= v < 7
    ensures v % 7 == v
  {
  }

  lemma NextArith(x: int, dim: int)
    ensures ((x % 7 + dim - 1) % 7 + 1) % 7 == (x + dim) % 7
  {
    ModSeven(x, dim - 1);
    ModSeven(x + dim - 1, 1);
  }

  lemma LeadingArith(w1: int, pd: int, wl: int, k0: int, i: int)
    requires wl == (w1 + pd - 1) % 7 && k0 == (wl + 1) % 7 && 0 <= i < k0
    ensures (w1 + (pd - k0 + 1 + i) - 1) % 7 == i
  {
    ModSeven(w1 + pd - 1, 1);
    ModCongruent(k0, w1 + pd, i - k0);
  }

  lemma LeadingDayWeekday(y: int, m: int, i: int)
    requires y >= 1 && 1 <= m <= 12 && 0 <= i < Weekday(Date(y, m, 1))
    ensures Weekday(LeadingDays(y, m)[i]) == i
  {
    var k0 := Weekday(Date(y, m, 1));
    var (py, pm) := PrevMonth(y, m);
    var pd := DaysInMonth(py, pm);
    assert LeadingDays(y, m)[i] == Date(py, pm, pd - k0 + 1 + i);
    assert NextMonth(py, pm) == (y, m);
    WeekdayNextMonth(py, pm);
    WeekdayInMonth(py, pm, pd);
    WeekdayInMonth(py, pm, pd - k0 + 1 + i);
    LeadingArith(Weekday(Date(py, pm, 1)), pd, Weekday(Date(py, pm, pd)), k0, i);
  }

  lemma TrailingDayWeekday(y: int, m: int, j: int)
    requires y >= 1 && 1 <= m <= 12 && 0 <= j < |TrailingDays(y, m)|
    ensures Weekday(TrailingDays(y, m)[j]) == (Weekday(Date(y, m, 1)) + DaysInMonth(y, m) + j) % 7
  {
    var (ny, nm) := NextMonth(y, m);
    var dim := DaysInMonth(y, m);
    var w1 := Weekday(Date(y, m, 1));
    assert TrailingDays(y, m)[j] == Date(ny, nm, j + 1);
    WeekdayInMonth(y, m, dim);
    WeekdayNextMonth(y, m);
    WeekdayInMonth(ny, nm, j + 1);
    ModSeven(w1 + dim - 1, 1);
    ModSeven(w1 + dim, j);
  }

  /** The i-th date `monthdatescalendar` lists falls on weekday i mod 7. */
  lemma CalendarDateWeekday(y: int, m: int, i: int)
    requires y >= 1 && 1 <= m <= 12 && 0 <= i < |CalendarDates(y, m)|
    ensures Weekday(CalendarDates(y, m)[i]) == i % 7
  {
    var k0 := Weekday(Date(y, m, 1));
    var dim := DaysInMonth(y, m);
    var cd := CalendarDates(y, m);
    if i < k0 {
      assert cd[i] == LeadingDays(y, m)[i];
      LeadingDayWeekday(y, m, i);
      assert Weekday(cd[i]) == i % 7 by { DivSeven(0, i); }
    } else if i < k0 + dim {
      assert cd[i] == Date(y, m, i - k0 + 1);
      WeekdayInMonth(y, m, i - k0 + 1);
    } else {
      assert cd[i] == TrailingDays(y, m)[i - k0 - dim];
      TrailingDayWeekday(y, m, i - k0 - dim);
    }
  }

  lemma WeekDayWeekday(y: int, m: int, k: int, j: int)
    requires y >= 1 && 1 <= m <= 12
    requires 0 <= k < |MonthDatesCalendar(y, m)| && 0 <= j < 7
    ensures ValidDate(MonthDatesCalendar(y, m)[k][j]) && Weekday(MonthDatesCalendar(y, m)[k][j]) == j
  {
    var cd := CalendarDates(y, m);
    var weeks := Weeks(cd);
    var i := 7 * k + j;
    assert 0 <= i < |cd|;
    assert weeks[k] == cd[7 * k..7 * k + 7];
    assert weeks[k][j] == cd[i];
    CalendarDateWeekday(y, m, i);
    DivSeven(k, j);
  }

  /** Every week of `monthdatescalendar` runs from Monday (0) to Sunday (6), spill-over
      days of the neighbouring months included. */
  lemma CalendarWeekdays(y: int, m: int)
    requires y >= 1 && 1 <= m <= 12
    ensures forall k, j :: 0 <= k < |MonthDatesCalendar(y, m)| && 0 <= j < 7 ==>
              ValidDate(MonthDatesCalendar(y, m)[k][j]) && Weekday(MonthDatesCalendar(y, m)[k][j]) == j
  {
    forall k, j | 0 <= k < |MonthDatesCalendar(y, m)| && 0 <= j < 7
      ensures ValidDate(MonthDatesCalendar(y, m)[k][j]) && Weekday(MonthDatesCalendar(y, m)[k][j]) == j
    {
      WeekDayWeekday(y, m, k, j);
    }
  }

  // ---------------------------------------------- arithmetic modulo seven

  lemma SameResidue(x: int, y: int)
    ensures (x - y) % 7 == 0 <==> x % 7 == y % 7
  {
    assert x == 7 * (x / 7) + x % 7;
    assert y == 7 * (y / 7) + y % 7;
    assert x - y == 7 * (x / 7 - y / 7) + (x % 7 - y % 7);
  }

  /** A residue in 0..6 that is congruent to n is n's residue. */
  lemma ResidueOf(x: int, n: int)
    requires 0 <= x < 7 && (x - n) % 7 == 0
    ensures x == n % 7
  {
    SameResidue(x, n);
  }

  lemma ModPredecessor(n: int)
    ensures n % 7 != 0 ==> (n - 1) % 7 == n % 7 - 1
    ensures n % 7 == 0 ==> (n - 1) % 7 == 6
  {
    ModSeven(n, -1);
  }

  // ------------------------------------------- occurrences of one weekday

  /** The days b, b + 7, b + 14, ... of the month. */
  function Occurrences(y: int, m: int, b: int): seq<Date>
    requires 1 <= m <= 12 && b >= 1
    decreases DaysInMonth(y, m) - b
  {
    if b > DaysInMonth(y, m) then [] else [Date(y, m, b)] + Occurrences(y, m, b + 7)
  }

  /** The k-th occurrence from day b is day b + 7k, as long as that is in the month. */
  lemma {:induction false} OccurrencesAt(y: int, m: int, b: int, k: nat)
    requires 1 <= m <= 12 && b >= 1
    ensures k < |Occurrences(y, m, b)| <==> b + 7 * k <= DaysInMonth(y, m)
    ensures k < |Occurrences(y, m, b)| ==> Occurrences(y, m, b)[k] == Date(y, m, b + 7 * k)
    decreases k
  {
    if b <= DaysInMonth(y, m) && k > 0 {
      OccurrencesAt(y, m, b + 7, k - 1);
    }
  }

  /** The day of the month on which weekday w first occurs. */
  function FirstOccurrence(y: int, m: int, w: int): (f: int)
    requires y >= 1 && 1 <= m <= 12 && 0 <= w < 7
    ensures 1 <= f <= 7 && Weekday(Date(y, m, f)) == w
  {
    var w1 := FirstWeekday(y, m);
    var f := 1 + (w - w1) % 7;
    ModSeven(w - w1, w1);
    f
  }

  lemma OffsetStep(w: int, x: int)
    requires 0 <= w < 7
    ensures x % 7 == w ==> (w - x) % 7 == 0 && (w - x - 1) % 7 == 6
    ensures x % 7 != w ==> (w - x) % 7 == 1 + (w - x - 1) % 7
  {
    SameResidue(w, x);
    ModPredecessor(w - x);
  }

  /** The dates a, a + 1, ... up to the end of the month. */
  function DaysFrom(y: int, m: int, a: int): (r: seq<Date>)
    requires y >= 1 && 1 <= m <= 12 && a >= 1
    ensures AllValid(r)
    decreases DaysInMonth(y, m) - a
  {
    if a > DaysInMonth(y, m) then [] else [Date(y, m, a)] + DaysFrom(y, m, a + 1)
  }

  lemma {:induction false} MonthDaysFrom(y: int, m: int, a: int)
    requires y >= 1 && 1 <= m <= 12 && 1 <= a <= DaysInMonth(y, m) + 1
    ensures MonthDays(y, m)[a - 1..] == DaysFrom(y, m, a)
    decreases DaysInMonth(y, m) - a
  {
    if a <= DaysInMonth(y, m) {
      MonthDaysFrom(y, m, a + 1);
      assert MonthDays(y, m)[a - 1..] == [Date(y, m, a)] + MonthDays(y, m)[a..];
    }
  }

  /** Filtering the days a..end of the month by weekday w keeps every seventh day from
      the first one, b, that falls on w. */
  lemma {:induction false} WithWeekdayFrom(y: int, m: int, w: int, a: int, b: int)
    requires y >= 1 && 1 <= m <= 12 && 1 <= a <= b < a + 7
    requires (FirstWeekday(y, m) + b - 1) % 7 == w
    ensures WithWeekday(DaysFrom(y, m, a), w, m) == Occurrences(y, m, b)
    decreases DaysInMonth(y, m) - a
  {
    if a <= DaysInMonth(y, m) {
      var w1 := FirstWeekday(y, m);
      WithWeekdayStep(y, m, w, a);
      var rest := WithWeekday(DaysFrom(y, m, a + 1), w, m);
      if a == b {
        WeekLater(w1 + b - 1);
        WithWeekdayFrom(y, m, w, a + 1, b + 7);
        assert Weekday(Date(y, m, a)) == w;
        assert Occurrences(y, m, b) == [Date(y, m, b)] + Occurrences(y, m, b + 7);
        assert WithWeekday(DaysFrom(y, m, a), w, m) == [Date(y, m, a)] + rest;
      } else {
        DistinctResidues(w1 + a - 1, w1 + b - 1);
        WithWeekdayFrom(y, m, w, a + 1, b);
        assert Weekday(Date(y, m, a)) != w;
        assert WithWeekday(DaysFrom(y, m, a), w, m) == [] + rest;
      }
    }
  }

  lemma WeekLater(k: int)
    ensures (k + 7) % 7 == k % 7
  {
  }

  lemma DistinctResidues(p: int, q: int)
    requires p < q < p + 7
    ensures p % 7 != q % 7
  {
    SameResidue(q, p);
  }

  lemma WithWeekdayStep(y: int, m: int, w: int, a: int)
    requires y >= 1 && 1 <= m <= 12 && 1 <= a <= DaysInMonth(y, m)
    ensures WithWeekday(DaysFrom(y, m, a), w, m)
         == (if Weekday(Date(y, m, a)) == w then [Date(y, m, a)] else [])
            + WithWeekday(DaysFrom(y, m, a + 1), w, m)
  {
    var ds := DaysFrom(y, m, a);
    assert ds[0] == Date(y, m, a) && ds[1..] == DaysFrom(y, m, a + 1);
  }

  lemma {:induction false} WithWeekdayConcat(a: seq<Date>, b: seq<Date>, w: int, month: int)
    requires AllValid(a) && AllValid(b)
    ensures AllValid(a + b)
    ensures WithWeekday(a + b, w, month) == WithWeekday(a, w, month) + WithWeekday(b, w, month)
    decreases |a|
  {
    if a == [] {
      assert a + b == b;
    } else {
      assert (a + b)[0] == a[0];
      assert (a + b)[1..] == a[1..] + b;
      WithWeekdayConcat(a[1..], b, w, month);
    }
  }

  lemma {:induction false} WithWeekdayElsewhere(ds: seq<Date>, w: int, month: int)
    requires AllValid(ds)
    requires (forall i :: 0 <= i < |ds| ==> ds[i].month != month) || !(0 <= w < 7)
    ensures WithWeekday(ds, w, month) == []
    decreases |ds|
  {
    if ds != [] {
      WithWeekdayElsewhere(ds[1..], w, month);
    }
  }

  /** The spill-over days before and after the month never match a filter on its month. */
  lemma CalendarMatches(y: int, m: int, w: int)
    requires y >= 1 && 1 <= m <= 12
    ensures AllValid(CalendarDates(y, m)) && AllValid(MonthDays(y, m))
    ensures WithWeekday(CalendarDates(y, m), w, m) == WithWeekday(MonthDays(y, m), w, m)
  {
    var lead, mid, trail := LeadingDays(y, m), MonthDays(y, m), TrailingDays(y, m);
    assert CalendarDates(y, m) == lead + mid + trail;
    WithWeekdayConcat(lead, mid, w, m);
    WithWeekdayConcat(lead + mid, trail, w, m);
    WithWeekdayElsewhere(lead, w, m);
    WithWeekdayElsewhere(trail, w, m);
  }

  /** The dates `Monthly` and `SemiMonthly` collect: every date of the month on weekday w,
      in order; spill-over dates never match. */
  lemma MatchingDates(y: int, m: int, w: int)
    requires y >= 1 && 1 <= m <= 12
    ensures AllValid(Flatten(MonthDatesCalendar(y, m)))
    ensures 0 <= w < 7 ==> WithWeekday(Flatten(MonthDatesCalendar(y, m)), w, m)
                           == Occurrences(y, m, FirstOccurrence(y, m, w))
    ensures !(0 <= w < 7) ==> WithWeekday(Flatten(MonthDatesCalendar(y, m)), w, m) == []
  {
    var cd := CalendarDates(y, m);
    FlattenWeeks(cd);
    CalendarMatches(y, m, w);
    if 0 <= w < 7 {
      MonthDaysFrom(y, m, 1);
      assert MonthDays(y, m)[0..] == MonthDays(y, m);
      WithWeekdayFrom(y, m, w, 1, FirstOccurrence(y, m, w));
    } else {
      WithWeekdayElsewhere(MonthDays(y, m), w, m);
    }
  }

  // ------------------------------------------------------- schedule lemmas

  /** `Daily` runs on every date. */
  lemma DailyAlways(date: Date)
    requires ValidDate(date)
    ensures IsScheduled(Daily, date) == Ok(true)
  {
  }

  /** `Weekly(w)` runs exactly on the dates that fall on weekday w, so never when w is
      outside 0..6. */
  lemma WeeklyIff(w: int, date: Date)
    requires ValidDate(date)
    ensures IsScheduled(Weekly(w), date) == Ok(Weekday(date) == w)
    ensures !(0 <= w < 7) ==> IsScheduled(Weekly(w), date) == Ok(false)
  {
  }

  /** Day d is the first day of the month on weekday w iff it is on w and within the
      first week; w1 is the weekday of the 1st. */
  lemma FirstWeekArith(w1: int, w: int, d: int)
    requires 0 <= w < 7 && d >= 1
    ensures ((w1 + d - 1) % 7 == w && d <= 7) <==> d == 1 + (w - w1) % 7
  {
    var f := 1 + (w - w1) % 7;
    ModSeven(w - w1, w1);
    if (w1 + d - 1) % 7 == w && d <= 7 {
      SameResidue(w1 + d - 1, w1 + f - 1);
      ResidueOf(d - 1, f - 1);
    }
  }

  /** `Monthly(w)` runs on the first date of the month that falls on weekday w, that is on
      weekday w within the first seven days; for w outside 0..6 it raises IndexError. */
  lemma MonthlyIff(w: int, date: Date)
    requires ValidDate(date)
    ensures 0 <= w < 7 ==> IsScheduled(Monthly(w), date) == Ok(Weekday(date) == w && date.day <= 7)
    ensures !(0 <= w < 7) ==> IsScheduled(Monthly(w), date) == Raised(IndexError)
  {
    assert IsScheduled(Monthly(w), date) == MonthlyScheduled(w, date);
    MonthlyByDay(w, date);
    if 0 <= w < 7 {
      var w1 := FirstWeekday(date.year, date.month);
      assert Weekday(date) == (w1 + date.day - 1) % 7;
      FirstWeekArith(w1, w, date.day);
    }
  }

  /** `Monthly(w)` picks the day on which weekday w first falls. */
  lemma MonthlyByDay(w: int, date: Date)
    requires ValidDate(date)
    ensures 0 <= w < 7 ==>
      MonthlyScheduled(w, date) == Ok(date.day == FirstOccurrence(date.year, date.month, w))
    ensures !(0 <= w < 7) ==> MonthlyScheduled(w, date) == Raised(IndexError)
  {
    var y, m := date.year, date.month;
    MatchingDates(y, m, w);
    if 0 <= w < 7 {
      OccurrencesAt(y, m, FirstOccurrence(y, m, w), 0);
    }
  }

  /** Division by seven of 7q + r, for a remainder r in 0..6. */
  lemma DivSeven(q: int, r: int)
    requires 0 <= r < 7
    ensures (7 * q + r) / 7 == q && (7 * q + r) % 7 == r
  {
  }

  /** Day d is on weekday w with an even occurrence index iff it is f + 14k for some
      k >= 0, where f is the first day on w and w1 the weekday of the 1st. */
  lemma EveryOtherArith(w1: int, w: int, d: int)
    requires 0 <= w < 7 && d >= 1
    ensures var f := 1 + (w - w1) % 7;
            ((w1 + d - 1) % 7 == w && ((d - 1) / 7) % 2 == 0)
            <==> (d >= f && (d - f) % 14 == 0)
  {
    var f := 1 + (w - w1) % 7;
    ModSeven(w - w1, w1);
    if (w1 + d - 1) % 7 == w && ((d - 1) / 7) % 2 == 0 {
      EvenWeekForward(w1, f, d);
    }
    if d >= f && (d - f) % 14 == 0 {
      EvenWeekBackward(w1, f, (d - f) / 14);
    }
  }

  lemma EvenWeekForward(w1: int, f: int, d: int)
    requires 1 <= f <= 7 && d >= 1
    requires (w1 + d - 1) % 7 == (w1 + f - 1) % 7 && ((d - 1) / 7) % 2 == 0
    ensures d >= f && (d - f) % 14 == 0
  {
    var j := (d - 1) / 7;
    DivSeven(j, (d - 1) % 7);
    SameResidue(w1 + d - 1, w1 + f - 1);
    ResidueOf((d - 1) % 7, f - 1);
    var i := j / 2;
    assert d - f == 14 * i;
  }

  lemma EvenWeekBackward(w1: int, f: int, k: int)
    requires 1 <= f <= 7 && k >= 0
    ensures (w1 + f + 14 * k - 1) % 7 == (w1 + f - 1) % 7 && ((f + 14 * k - 1) / 7) % 2 == 0
  {
    DivSeven(2 * k, f - 1);
    ModSeven(w1 + f - 1, 14 * k);
  }

  /** Every other date of the occurrences from day f are the days f + 14k. */
  lemma EveryOtherOccurrences(y: int, m: int, f: int, date: Date)
    requires 1 <= m <= 12 && 1 <= f && date.year == y && date.month == m
    requires 1 <= date.day <= DaysInMonth(y, m)
    ensures date in EveryOther(Occurrences(y, m, f)) <==> (date.day >= f && (date.day - f) % 14 == 0)
  {
    if date in EveryOther(Occurrences(y, m, f)) {
      PickedDay(y, m, f, date);
    }
    if date.day >= f && (date.day - f) % 14 == 0 {
      DayPicked(y, m, f, date);
    }
  }

  /** A date every other occurrence from day f keeps lies 14k days after f. */
  lemma PickedDay(y: int, m: int, f: int, date: Date)
    requires 1 <= m <= 12 && 1 <= f && date in EveryOther(Occurrences(y, m, f))
    ensures date.day >= f && (date.day - f) % 14 == 0
  {
    var xs := Occurrences(y, m, f);
    var k := EveryOtherIndex(xs, date);
    OccurrencesAt(y, m, f, 2 * k);
    MultipleOfFourteen(k);
    assert date.day - f == 14 * k;
  }

  /** Where `xs[::2]` took a kept element from. */
  lemma EveryOtherIndex(xs: seq<Date>, x: Date) returns (k: nat)
    requires x in EveryOther(xs)
    ensures 2 * k < |xs| && xs[2 * k] == x
  {
    var picked := EveryOther(xs);
    var i :| 0 <= i < |picked| && picked[i] == x;
    k := i;
  }

  lemma MultipleOfFourteen(k: int)
    ensures (14 * k) % 14 == 0
  {
  }

  /** A day of the month 14k days after f is kept by every other occurrence from f. */
  lemma DayPicked(y: int, m: int, f: int, date: Date)
    requires 1 <= m <= 12 && 1 <= f && date.year == y && date.month == m
    requires f <= date.day <= DaysInMonth(y, m) && (date.day - f) % 14 == 0
    ensures date in EveryOther(Occurrences(y, m, f))
  {
    var xs := Occurrences(y, m, f);
    var picked := EveryOther(xs);
    var k := (date.day - f) / 14;
    assert date.day == f + 7 * (2 * k);
    OccurrencesAt(y, m, f, 2 * k);
    assert picked[k] == date;
  }

  /** `SemiMonthly(w)` runs on the 1st, 3rd and 5th date of the month that fall on weekday
      w (the `[::2]` slice keeps every other match); for w outside 0..6 never. */
  lemma SemiMonthlyIff(w: int, date: Date)
    requires ValidDate(date)
    ensures 0 <= w < 7 ==> IsScheduled(SemiMonthly(w), date)
                           == Ok(Weekday(date) == w && ((date.day - 1) / 7) % 2 == 0)
    ensures !(0 <= w < 7) ==> IsScheduled(SemiMonthly(w), date) == Ok(false)
  {
    var y, m := date.year, date.month;
    if 0 <= w < 7 {
      SemiMonthlyByDay(w, date);
      EveryOtherArith(FirstWeekday(y, m), w, date.day);
    } else {
      MatchingDates(y, m, w);
    }
  }

  /** `SemiMonthly(w)` keeps the days f, f + 14, f + 28 of the month, f being the first day
      on weekday w. */
  lemma SemiMonthlyByDay(w: int, date: Date)
    requires ValidDate(date) && 0 <= w < 7
    ensures var f := FirstOccurrence(date.year, date.month, w);
      SemiMonthlyScheduled(w, date) <==> date.day >= f && (date.day - f) % 14 == 0
  {
    var y, m := date.year, date.month;
    MatchingDates(y, m, w);
    EveryOtherOccurrences(y, m, FirstOccurrence(y, m, w), date);
  }

  /** The last Monday-to-Friday date of a month: the last day, or the Friday before a
      weekend month end; `LastOpenDayIsLast` states what it is. */
  function LastOpenDay(y: int, m: int): (d: int)
    requires y >= 1 && 1 <= m <= 12
    ensures 1 <= d <= DaysInMonth(y, m)
  {
    var dim := DaysInMonth(y, m);
    var wl := Weekday(Date(y, m, dim));
    dim - wl + (if wl < 4 then wl else 4)
  }

  /** `LastOpenDay` is a Monday-to-Friday date and every later day of the month falls on
      a weekend. */
  lemma LastOpenDayIsLast(y: int, m: int)
    requires y >= 1 && 1 <= m <= 12
    ensures var d := LastOpenDay(y, m);
            Weekday(Date(y, m, d)) < 5
            && forall e :: d < e <= DaysInMonth(y, m) ==> Weekday(Date(y, m, e)) >= 5
  {
    var dim := DaysInMonth(y, m);
    var wl := Weekday(Date(y, m, dim));
    LastWeekWeekday(y, m, LastOpenDay(y, m));
    forall e | LastOpenDay(y, m) < e <= dim
      ensures Weekday(Date(y, m, e)) >= 5
    {
      LastWeekWeekday(y, m, e);
    }
  }

  /** In the month's last week, day e falls on weekday e - (its Monday). */
  lemma LastWeekWeekday(y: int, m: int, e: int)
    requires y >= 1 && 1 <= m <= 12
    requires DaysInMonth(y, m) - Weekday(Date(y, m, DaysInMonth(y, m))) <= e <= DaysInMonth(y, m)
    ensures Weekday(Date(y, m, e)) == e - (DaysInMonth(y, m) - Weekday(Date(y, m, DaysInMonth(y, m))))
  {
    var dim := DaysInMonth(y, m);
    var w1 := Weekday(Date(y, m, 1));
    var wl := Weekday(Date(y, m, dim));
    WeekdayInMonth(y, m, e);
    WeekdayInMonth(y, m, dim);
    var q := (w1 + dim - 1) / 7;
    assert w1 + dim - 1 == 7 * q + wl;
    assert w1 + e - 1 == 7 * q + (e - dim + wl);
    DivSeven(q, e - dim + wl);
  }

  /** A date is the month's last open day iff it is a Monday-to-Friday date with no later
      Monday-to-Friday date in its month. */
  lemma LastOpenDayUnique(date: Date)
    requires ValidDate(date)
    ensures date.day == LastOpenDay(date.year, date.month)
        <==> (Weekday(date) < 5 && forall e :: date.day < e <= DaysInMonth(date.year, date.month)
                                    ==> Weekday(Date(date.year, date.month, e)) >= 5)
  {
    var y, m := date.year, date.month;
    var d := LastOpenDay(y, m);
    LastOpenDayIsLast(y, m);
    if Weekday(date) < 5 && date.day != d {
      if date.day < d {
        assert Weekday(Date(y, m, d)) < 5;
      }
    }
  }

  /** A list none of whose dates is an open day of the month has no open days. */
  lemma {:induction false} OpenDaysNone(ds: seq<Date>, month: int)
    requires AllValid(ds)
    requires forall j :: 0 <= j < |ds| ==> !(Weekday(ds[j]) < 5 && ds[j].month == month)
    ensures OpenDays(ds, month) == []
  {
    if ds != [] {
      OpenDaysNone(ds[1..], month);
    }
  }

  /** The last open day of the month in a list is its last element that is one. */
  lemma {:induction false} OpenDaysLast(ds: seq<Date>, month: int, i: int)
    requires AllValid(ds) && 0 <= i < |ds|
    requires Weekday(ds[i]) < 5 && ds[i].month == month
    requires forall j :: i < j < |ds| ==> !(Weekday(ds[j]) < 5 && ds[j].month == month)
    ensures var r := OpenDays(ds, month); |r| > 0 && r[|r| - 1] == ds[i]
  {
    if i == 0 {
      OpenDaysNone(ds[1..], month);
      assert OpenDays(ds, month) == [ds[0]];
    } else {
      OpenDaysLast(ds[1..], month, i - 1);
    }
  }

  /** The Monday-first week of the calendar that holds day e of the month's last week. */
  lemma LastWeekDay(y: int, m: int, j: int)
    requires y >= 1 && 1 <= m <= 12 && 0 <= j < 7
    ensures var weeks := MonthDatesCalendar(y, m);
            var dim := DaysInMonth(y, m);
            var wl := Weekday(Date(y, m, dim));
            |weeks| > 0 && |weeks[|weeks| - 1]| == 7
            && weeks[|weeks| - 1][j] == (if j <= wl then Date(y, m, dim - wl + j) else TrailingDays(y, m)[j - wl - 1])
  {
    var cd := CalendarDates(y, m);
    var weeks := Weeks(cd);
    var dim := DaysInMonth(y, m);
    var wl := Weekday(Date(y, m, dim));
    var lead := LeadingDays(y, m);
    var k := |weeks| - 1;
    assert weeks[k] == cd[7 * k..7 * k + 7];
    assert 7 * k == |cd| - 7;
    assert |cd| == |lead| + dim + (6 - wl);
    if j <= wl {
      assert cd[|lead| + (dim - wl - 1 + j)] == MonthDays(y, m)[dim - wl - 1 + j];
    } else {
      assert cd[|lead| + dim + (j - wl - 1)] == TrailingDays(y, m)[j - wl - 1];
    }
  }

  /** The calendar's last week: all valid, and its last open day of the month is day
      `LastOpenDay`, at position i. */
  lemma LastWeekOpen(y: int, m: int)
    requires y >= 1 && 1 <= m <= 12
    ensures var weeks := MonthDatesCalendar(y, m);
            var dim := DaysInMonth(y, m);
            var i := LastOpenDay(y, m) - (dim - Weekday(Date(y, m, dim)));
            |weeks| > 0 &&
            var lw := weeks[|weeks| - 1];
            AllValid(lw) && 0 <= i < |lw| && lw[i] == Date(y, m, LastOpenDay(y, m)) && Weekday(lw[i]) < 5
            && forall j :: i < j < |lw| ==> !(Weekday(lw[j]) < 5 && lw[j].month == m)
  {
    var weeks := MonthDatesCalendar(y, m);
    var dim := DaysInMonth(y, m);
    var i := LastOpenDay(y, m) - (dim - Weekday(Date(y, m, dim)));
    LastWeekValid(y, m);
    LastOpenDayIsLast(y, m);
    LastWeekDay(y, m, i);
    LastWeekClosedAfter(y, m, i);
  }

  lemma LastWeekValid(y: int, m: int)
    requires y >= 1 && 1 <= m <= 12
    ensures var weeks := MonthDatesCalendar(y, m);
            |weeks| > 0 && |weeks[|weeks| - 1]| == 7 && AllValid(weeks[|weeks| - 1])
  {
    var weeks := MonthDatesCalendar(y, m);
    LastWeekDay(y, m, 0);
    var lw := weeks[|weeks| - 1];
    forall j | 0 <= j < 7 ensures ValidDate(lw[j]) {
      LastWeekDay(y, m, j);
    }
  }

  /** No day of the last week after position `i` is an open day of the month. */
  lemma LastWeekClosedAfter(y: int, m: int, i: int)
    requires y >= 1 && 1 <= m <= 12
    requires i == LastOpenDay(y, m) - (DaysInMonth(y, m) - Weekday(Date(y, m, DaysInMonth(y, m))))
    ensures var weeks := MonthDatesCalendar(y, m);
            |weeks| > 0 && AllValid(weeks[|weeks| - 1]) &&
            var lw := weeks[|weeks| - 1];
            forall j :: i < j < |lw| ==> !(Weekday(lw[j]) < 5 && lw[j].month == m)
  {
    var weeks := MonthDatesCalendar(y, m);
    var dim := DaysInMonth(y, m);
    var wl := Weekday(Date(y, m, dim));
    LastWeekValid(y, m);
    LastOpenDayIsLast(y, m);
    var lw := weeks[|weeks| - 1];
    forall j | i < j < 7
      ensures !(Weekday(lw[j]) < 5 && lw[j].month == m)
    {
      LastWeekDay(y, m, j);
      if j <= wl {
        LastWeekWeekday(y, m, dim - wl + j);
      }
    }
  }


  /** `MonthlyLastOpenDayInMonth` runs exactly on the month's last Monday-to-Friday date;
      the last calendar week always holds one, so it never raises. */
  lemma MonthlyLastOpenDayIff(date: Date)
    requires ValidDate(date)
    ensures IsScheduled(MonthlyLastOpenDayInMonth, date)
            == Ok(date.day == LastOpenDay(date.year, date.month))
  {
    assert IsScheduled(MonthlyLastOpenDayInMonth, date) == LastOpenDayScheduled(date);
    LastWeekLastOpen(date.year, date.month);
  }

  /** The last open day of the month in the calendar's last week is day `LastOpenDay`. */
  lemma LastWeekLastOpen(y: int, m: int)
    requires y >= 1 && 1 <= m <= 12
    ensures var weeks := MonthDatesCalendar(y, m);
            |weeks| > 0 && AllValid(weeks[|weeks| - 1]) &&
            var open := OpenDays(weeks[|weeks| - 1], m);
            |open| > 0 && open[|open| - 1] == Date(y, m, LastOpenDay(y, m))
  {
    var weeks := MonthDatesCalendar(y, m);
    var dim := DaysInMonth(y, m);
    LastWeekOpen(y, m);
    OpenDaysLast(weeks[|weeks| - 1], m, LastOpenDay(y, m) - (dim - Weekday(Date(y, m, dim))));
  }

  lemma AddWeeks(x: int, n: int)
    ensures (x + 7 * n) % 7 == x % 7
  {
    var q, r := x / 7, x % 7;
    assert x + 7 * n == 7 * (q + n) + r;
    DivSeven(q + n, r);
  }

  /** The weekday of a day follows from the weekday its month begins on. */
  lemma WeekdayFromStart(y: int, m: int, d: int, w1: int)
    requires ValidDate(Date(y, m, d)) && FirstWeekday(y, m) == w1
    ensures Weekday(Date(y, m, d)) == (w1 + d - 1) % 7
  {
  }

  /** January 1st fell on a Saturday in 2022. */
  lemma YearStart2022()
    ensures YearStart(2022) == 5
  {
    EarlyYearStarts();
    assert YearStart(2022) == YearStart(1622) == YearStart(1222) == YearStart(822)
        == YearStart(422) == YearStart(22);
  }

  /** January 1st fell on a Sunday in 2023. */
  lemma YearStart2023()
    ensures YearStart(2023) == 6
  {
    EarlyYearStarts();
    assert YearStart(2023) == YearStart(1623) == YearStart(1223) == YearStart(823)
        == YearStart(423) == YearStart(23);
  }

  lemma EarlyYearStarts()
    ensures YearStart(22) == 5 && YearStart(23) == 6
  {
    // One year at a time.
    YearStartStep(1);
    assert YearStart(2) == 1;
    YearStartStep(2);
    assert YearStart(3) == 2;
    YearStartStep(3);
    assert YearStart(4) == 3;
    YearStartStep(4);
    assert YearStart(5) == 5;
    YearStartStep(5);
    assert YearStart(6) == 6;
    YearStartStep(6);
    assert YearStart(7) == 0;
    YearStartStep(7);
    assert YearStart(8) == 1;
    YearStartStep(8);
    assert YearStart(9) == 3;
    YearStartStep(9);
    assert YearStart(10) == 4;
    YearStartStep(10);
    assert YearStart(11) == 5;
    YearStartStep(11);
    assert YearStart(12) == 6;
    YearStartStep(12);
    assert YearStart(13) == 1;
    YearStartStep(13);
    assert YearStart(14) == 2;
    YearStartStep(14);
    assert YearStart(15) == 3;
    YearStartStep(15);
    assert YearStart(16) == 4;
    YearStartStep(16);
    assert YearStart(17) == 6;
    YearStartStep(17);
    assert YearStart(18) == 0;
    YearStartStep(18);
    assert YearStart(19) == 1;
    YearStartStep(19);
    assert YearStart(20) == 2;
    YearStartStep(20);
    assert YearStart(21) == 4;
    YearStartStep(21);
    assert YearStart(22) == 5;
    YearStartStep(22);
    assert YearStart(23) == 6;
  }

  /** February 2023 begins on a Wednesday. */
  lemma February2023Start()
    ensures FirstWeekday(2023, 2) == 2
  {
    YearStart2023();
  }

  lemma February2023End()
    ensures Weekday(Date(2023, 2, 28)) == 1
  {
    February2023Start();
    WeekdayFromStart(2023, 2, 28, 2);
  }

  /** February 2023 ends on a Tuesday, which is its last open day. */
  lemma February2023()
    ensures Weekday(Date(2023, 2, 28)) == 1 && LastOpenDay(2023, 2) == 28
  {
    February2023End();
  }

  /** January 2023 begins on a Sunday. */
  lemma January2023Start()
    ensures FirstWeekday(2023, 1) == 6
  {
    YearStart2023();
  }

  lemma January2023End()
    ensures Weekday(Date(2023, 1, 31)) == 1
  {
    January2023Start();
    WeekdayFromStart(2023, 1, 31, 6);
  }

  /** January 2023 ends on a Tuesday, which is its last open day. */
  lemma January2023()
    ensures Weekday(Date(2023, 1, 31)) == 1 && LastOpenDay(2023, 1) == 31
  {
    January2023End();
  }

  /** December 2022 begins on a Thursday. */
  lemma December2022Start()
    ensures FirstWeekday(2022, 12) == 3
  {
    YearStart2022();
  }

  lemma December2022End()
    ensures Weekday(Date(2022, 12, 31)) == 5
  {
    December2022Start();
    WeekdayFromStart(2022, 12, 31, 3);
  }

  /** December 2022 ends on a Saturday; its last open day is Friday the 30th. */
  lemma December2022()
    ensures Weekday(Date(2022, 12, 31)) == 5 && LastOpenDay(2022, 12) == 30
  {
    December2022End();
  }

  /** July 2022 begins on a Friday. */
  lemma July2022Start()
    ensures FirstWeekday(2022, 7) == 4
  {
    YearStart2022();
  }

  lemma July2022End()
    ensures Weekday(Date(2022, 7, 31)) == 6
  {
    July2022Start();
    WeekdayFromStart(2022, 7, 31, 4);
  }

  /** July 2022 ends on a Sunday; its last open day is Friday the 29th. */
  lemma July2022()
    ensures Weekday(Date(2022, 7, 31)) == 6 && LastOpenDay(2022, 7) == 29
  {
    July2022End();
  }

  /** The dates the last-open-day test expects to be scheduled are. */
  lemma ScheduledMonthEnds(date: Date)
    requires date in [Date(2023, 2, 28), Date(2023, 1, 31), Date(2022, 12, 30), Date(2022, 7, 29)]
    ensures IsScheduled(MonthlyLastOpenDayInMonth, date) == Ok(true)
  {
    February2023();
    January2023();
    December2022();
    July2022();
    MonthlyLastOpenDayIff(date);
  }

  /** The weekend month ends the test expects not to be scheduled are not. */
  lemma UnscheduledMonthEnds(date: Date)
    requires date in [Date(2022, 12, 31), Date(2022, 7, 31)]
    ensures IsScheduled(MonthlyLastOpenDayInMonth, date) == Ok(false)
  {
    February2023();
    January2023();
    December2022();
    July2022();
    MonthlyLastOpenDayIff(date);
  }
}
