/** The GlobeTrotter calendar page (client/src/pages/CalendarView.jsx): the
    month arithmetic that JavaScript's `Date` constructor performs, the day
    grid of one month and the trips shown on each day. A calendar day is a
    (year, month 0..11, day) triple in the browser's time zone. */
module Calendar {
  import opened Wrappers
  import opened Seqs
  import TripRoutes

  /** Gregorian leap years. */
  predicate IsLeap(y: int)
  {
    y % 4 == 0 && (y % 100 != 0 || y % 400 == 0)
  }

  function DaysIn(y: int, m: int): (r: int)
    requires 0 <= m < 12
    ensures 28 <= r <= 31
    ensures m == 1 ==> (r == 29 <==> IsLeap(y))
    ensures m != 1 ==> r >= 30
  {
    if m == 1 then (if IsLeap(y) then 29 else 28)
    else if m == 3 || m == 5 || m == 8 || m == 10 then 30
    else 31
  }

  datatype CalDate = CalDate(year: int, month: int, day: int)

  ghost predicate ValidDate(d: CalDate)
  {
    0 <= d.month < 12 && 1 <= d.day <= DaysIn(d.year, d.month)
  }

  /** Months counted from January of year 0; `Date` carries a month outside
      0..11 into the year this way. */
  function MonthIndex(y: int, m: int): int
  {
    12 * y + m
  }

  function YearOf(i: int): int
  {
    i / 12
  }

  function MonthOf(i: int): (m: int)
    ensures 0 <= m < 12
    ensures MonthIndex(YearOf(i), m) == i
  {
    i % 12
  }

  function MonthLength(i: int): (r: int)
    ensures 28 <= r <= 31
  {
    DaysIn(YearOf(i), MonthOf(i))
  }

  /** The number of leap years in [0, y) (negated for negative y). */
  function LeapsBefore(y: int): int
  {
    (y + 3) / 4 - (y + 99) / 100 + (y + 399) / 400
  }

  lemma LeapsStep(y: int)
    ensures LeapsBefore(y + 1) == LeapsBefore(y) + (if IsLeap(y) then 1 else 0)
  {
    Step4(y);
    Step100(y);
    Step400(y);
    DivisorChain(y);
  }

  lemma DivisorChain(y: int)
    ensures y % 400 == 0 ==> y % 100 == 0
    ensures y % 100 == 0 ==> y % 4 == 0
  {
    if y % 400 == 0 {
      Hundreds(y / 400 * 4);
      assert y == (y / 400 * 4) * 100;
    }
    if y % 100 == 0 {
      Fours(y / 100 * 25);
      assert y == (y / 100 * 25) * 4;
    }
  }

  // Hundreds, Fours, Step4, Step100 and Step400 are the division facts
  // LeapsStep needs, each proved on its own so that the non-linear `/` and
  // `%` stay out of the larger proofs.

  lemma Hundreds(k: int)
    ensures (k * 100) % 100 == 0
  {
  }

  lemma Fours(k: int)
    ensures (k * 4) % 4 == 0
  {
  }

  lemma Step4(y: int)
    ensures (y + 4) / 4 == (y + 3) / 4 + (if y % 4 == 0 then 1 else 0)
  {
  }

  lemma Step100(y: int)
    ensures (y + 100) / 100 == (y + 99) / 100 + (if y % 100 == 0 then 1 else 0)
  {
  }

  lemma Step400(y: int)
    ensures (y + 400) / 400 == (y + 399) / 400 + (if y % 400 == 0 then 1 else 0)
  {
  }

  function DaysBeforeYear(y: int): int
  {
    365 * y + LeapsBefore(y)
  }

  function DaysBeforeMonth(y: int, m: int): int
    requires 0 <= m < 12
  {
    [0, 31, 59, 90, 120, 151, 181, 212, 243, 273, 304, 334][m] + (if m >= 2 && IsLeap(y) then 1 else 0)
  }

  /** The day number of the first day of month `i`. */
  function FirstOfMonth(i: int): int
  {
    DaysBeforeYear(YearOf(i)) + DaysBeforeMonth(YearOf(i), MonthOf(i))
  }

  /** The day number of a date; a day outside the month counts on from the
      month's first day, as `Date` does. */
  function DayNumber(d: CalDate): int
  {
    FirstOfMonth(MonthIndex(d.year, d.month)) + d.day - 1
  }

  /** The next month starts right after this one ends. */
  lemma MonthStep(i: int)
    ensures FirstOfMonth(i + 1) == FirstOfMonth(i) + MonthLength(i)
  {
    var y, m := YearOf(i), MonthOf(i);
    if m < 11 {
      assert i + 1 == 12 * y + (m + 1);
      assert YearOf(i + 1) == y && MonthOf(i + 1) == m + 1;
    } else {
      assert i + 1 == 12 * (y + 1);
      assert YearOf(i + 1) == y + 1 && MonthOf(i + 1) == 0;
      LeapsStep(y);
    }
  }

  lemma {:induction false} FirstOfMonthIncreasing(i: int, j: int)
    requires i < j
    ensures FirstOfMonth(i) + MonthLength(i) <= FirstOfMonth(j)
    decreases j - i
  {
    MonthStep(i);
    if i + 1 < j {
      FirstOfMonthIncreasing(i + 1, j);
    }
  }

  /** Calendar order on valid dates. */
  predicate CalLe(a: CalDate, b: CalDate)
  {
    a.year < b.year || (a.year == b.year && (a.month < b.month || (a.month == b.month && a.day <= b.day)))
  }

  /** Day numbers order valid dates as the calendar does, so comparing them
      compares days. */
  lemma DayNumberOrder(a: CalDate, b: CalDate)
    requires ValidDate(a) && ValidDate(b)
    ensures DayNumber(a) <= DayNumber(b) <==> CalLe(a, b)
  {
    var i, j := MonthIndex(a.year, a.month), MonthIndex(b.year, b.month);
    assert YearOf(i) == a.year && MonthOf(i) == a.month;
    assert YearOf(j) == b.year && MonthOf(j) == b.month;
    if i < j {
      FirstOfMonthIncreasing(i, j);
    } else if j < i {
      FirstOfMonthIncreasing(j, i);
    }
  }

  /** Steps back a month at a time until the day lies in the month. */
  function RollBack(i: int, d: int): (r: CalDate)
    requires d < 1
    ensures ValidDate(r)
    ensures DayNumber(r) == FirstOfMonth(i) + d - 1
    decreases -d
  {
    MonthStep(i - 1);
    var d' := d + MonthLength(i - 1);
    assert MonthIndex(YearOf(i - 1), MonthOf(i - 1)) == i - 1;
    if d' >= 1 then CalDate(YearOf(i - 1), MonthOf(i - 1), d')
    else RollBack(i - 1, d')
  }

  /** Steps forward a month at a time until the day lies in the month. */
  function RollForward(i: int, d: int): (r: CalDate)
    requires d >= 1
    ensures ValidDate(r)
    ensures DayNumber(r) == FirstOfMonth(i) + d - 1
    decreases d
  {
    assert MonthIndex(YearOf(i), MonthOf(i)) == i;
    if d <= MonthLength(i) then CalDate(YearOf(i), MonthOf(i), d)
    else
      MonthStep(i);
      RollForward(i + 1, d - MonthLength(i))
  }

  /** The date a (year, month, day) triple denotes once the month carries
      into the year and the day into the month: a real date with the same
      day number as the triple. */
  function Normalize(y: int, m: int, d: int): (r: CalDate)
    ensures ValidDate(r)
    ensures DayNumber(r) == DayNumber(CalDate(y, m, d))
  {
    var i := MonthIndex(y, m);
    if d < 1 then RollBack(i, d) else RollForward(i, d)
  }

  /** The year `new Date(y, m, d)` takes its year argument for: 0..99 stand
      for 1900..1999. */
  function FullYear(y: int): (r: int)
    ensures 0 <= y <= 99 ==> r == 1900 + y
    ensures !(0 <= y <= 99) ==> r == y
  {
    if 0 <= y <= 99 then 1900 + y else y
  }

  /** `new Date(y, m, d)` in local time: a two-digit year argument is read
      as 19yy, then the month carries into the year and the day into the
      month. */
  function MakeDate(y: int, m: int, d: int): (r: CalDate)
    ensures ValidDate(r)
    ensures DayNumber(r) == DayNumber(CalDate(FullYear(y), m, d))
  {
    Normalize(FullYear(y), m, d)
  }

  /** Day 1 of any month, however far the month lies outside 0..11, is day 1
      of month `MonthIndex(y, m)`. */
  lemma MonthStart(y: int, m: int)
    ensures Normalize(y, m, 1).day == 1
    ensures MonthIndex(Normalize(y, m, 1).year, Normalize(y, m, 1).month) == MonthIndex(y, m)
  {
    var r := Normalize(y, m, 1);
    var j := MonthIndex(y, m);
    assert DayNumber(r) == FirstOfMonth(j);
    var i := MonthIndex(r.year, r.month);
    assert YearOf(i) == r.year && MonthOf(i) == r.month;
    assert YearOf(j) * 12 + MonthOf(j) == j;
    if i < j {
      FirstOfMonthIncreasing(i, j);
    } else if j < i {
      FirstOfMonthIncreasing(j, i);
    }
  }

  /** Normalizing a valid date leaves it as it is. */
  lemma NormalizeValid(d: CalDate)
    requires ValidDate(d)
    ensures Normalize(d.year, d.month, d.day) == d
  {
    var r := Normalize(d.year, d.month, d.day);
    DayNumberOrder(r, d);
    DayNumberOrder(d, r);
  }

  /** `new Date(y, m, d)` of a date that is valid once the year is read gives
      that date: outside years 0..99 the triple itself, inside them the same
      day and month of 1900 + y. */
  lemma MakeDateValid(d: CalDate)
    requires ValidDate(CalDate(FullYear(d.year), d.month, d.day))
    ensures MakeDate(d.year, d.month, d.day) == CalDate(FullYear(d.year), d.month, d.day)
    ensures !(0 <= d.year <= 99) ==> MakeDate(d.year, d.month, d.day) == d
  {
    NormalizeValid(CalDate(FullYear(d.year), d.month, d.day));
  }

  /** The two-digit rule at work: November of year 99 is November 1999,
      month 12 of year 99 is January 2000, and February of year 0 is
      February 1900, which has 28 days although year 0 is a leap year. */
  lemma TwoDigitYears()
    ensures MakeDate(99, 10, 1) == CalDate(1999, 10, 1)
    ensures MakeDate(99, 12, 1) == CalDate(2000, 0, 1)
    ensures IsLeap(0) && GetDaysInMonth(CalDate(0, 1, 1)) == 28
  {
    MakeDateValid(CalDate(99, 10, 1));
    MonthStart(1999, 12);
    assert !IsLeap(1900);
  }

  /** `getDay()`: Sunday is 0; 1 January 1970 was a Thursday. */
  function Weekday(d: CalDate): (r: int)
    ensures 0 <= r < 7
  {
    (DayNumber(d) + 6) % 7
  }

  lemma EpochIsThursday()
    ensures Weekday(CalDate(1970, 0, 1)) == 4
  {
    assert YearOf(23640) == 1970 && MonthOf(23640) == 0;
    assert LeapsBefore(1970) == 478;
    assert DayNumber(CalDate(1970, 0, 1)) == 719528;
  }

  /** `getDaysInMonth(date)`: the day of `new Date(y, m + 1, 0)`, the last
      day of month m of the year the year argument is read as. */
  function GetDaysInMonth(date: CalDate): (r: int)
    requires ValidDate(date)
    ensures r == DaysIn(FullYear(date.year), date.month)
    ensures 28 <= r <= 31
    ensures date.month == 1 ==> (r == 29 <==> IsLeap(FullYear(date.year)))
  {
    LastDayOfMonth(FullYear(date.year), date.month);
    MakeDate(date.year, date.month + 1, 0).day
  }

  /** Day 0 of the next month is the last day of this one. */
  lemma LastDayOfMonth(y: int, m: int)
    requires 0 <= m < 12
    ensures Normalize(y, m + 1, 0) == CalDate(y, m, DaysIn(y, m))
  {
    var i := MonthIndex(y, m);
    var last := Normalize(y, m + 1, 0);
    assert MonthIndex(y, m + 1) == i + 1;
    MonthStep(i);
    assert YearOf(i) == y && MonthOf(i) == m;
    var expected := CalDate(y, m, DaysIn(y, m));
    DayNumberOrder(last, expected);
    DayNumberOrder(expected, last);
  }

  /** `getFirstDayOfMonth(date)`: the weekday of day 1 of the month, in the
      year the year argument is read as. */
  function GetFirstDayOfMonth(date: CalDate): (r: int)
    ensures 0 <= r < 7
    ensures r == Weekday(CalDate(FullYear(date.year), date.month, 1))
  {
    Weekday(MakeDate(date.year, date.month, 1))
  }

  /** The grid of the next month starts on the weekday after this month's
      last day. */
  lemma NextMonthStartsAfter(date: CalDate)
    requires ValidDate(date)
    ensures GetFirstDayOfMonth(CalDate(date.year, date.month + 1, 1))
         == (GetFirstDayOfMonth(date) + GetDaysInMonth(date)) % 7
  {
    var a, b := FirstDays(date);
    WeekdayAfter(a, b, GetDaysInMonth(date));
  }

  /** `n` days after a day with weekday w comes weekday (w + n) % 7. */
  lemma WeekdayAfter(a: int, b: int, n: int)
    requires b == a + n
    ensures (b + 6) % 7 == ((a + 6) % 7 + n) % 7
  {
    WeekdayShift(a, n);
  }

  /** Day 1 of this month and of the next, as day numbers `a` and `b`. */
  lemma FirstDays(date: CalDate) returns (a: int, b: int)
    requires ValidDate(date)
    ensures b == a + GetDaysInMonth(date)
    ensures GetFirstDayOfMonth(date) == (a + 6) % 7
    ensures GetFirstDayOfMonth(CalDate(date.year, date.month + 1, 1)) == (b + 6) % 7
  {
    var y := FullYear(date.year);
    var next := CalDate(date.year, date.month + 1, 1);
    a := DayNumber(CalDate(y, date.month, 1));
    b := DayNumber(CalDate(y, date.month + 1, 1));
    var n := GetDaysInMonth(date);
    NextMonthDayNumber(CalDate(y, date.month, 1));
    assert b == a + DaysIn(y, date.month);
    assert n == DaysIn(y, date.month);
    FirstDayIs(date);
    FirstDayIs(next);
    assert FullYear(next.year) == y && next.month == date.month + 1;
  }

  lemma FirstDayIs(date: CalDate)
    ensures GetFirstDayOfMonth(date) == (DayNumber(CalDate(FullYear(date.year), date.month, 1)) + 6) % 7
  {
    var w := Weekday(CalDate(FullYear(date.year), date.month, 1));
    assert w == (DayNumber(CalDate(FullYear(date.year), date.month, 1)) + 6) % 7;
  }

  /** Day 1 of the next month comes right after the last day of this one. */
  lemma NextMonthDayNumber(date: CalDate)
    requires ValidDate(date)
    ensures DayNumber(CalDate(date.year, date.month + 1, 1))
         == DayNumber(CalDate(date.year, date.month, 1)) + DaysIn(date.year, date.month)
  {
    var i := MonthIndex(date.year, date.month);
    assert MonthIndex(date.year, date.month + 1) == i + 1;
    assert YearOf(i) == date.year && MonthOf(i) == date.month;
    MonthStep(i);
  }

  lemma WeekdayShift(a: int, n: int)
    ensures (a + n + 6) % 7 == ((a + 6) % 7 + n) % 7
  {
    var q := (a + 6) / 7;
    assert a + 6 == 7 * q + (a + 6) % 7;
    assert a + n + 6 == 7 * q + ((a + 6) % 7 + n);
  }

  /** A trip covers a day when its parsed start and end days enclose it;
      an unparsable date is NaN, and every comparison with NaN fails. */
  predicate Covers(t: TripRoutes.Trip, k: (int, string -> Option<CalDate>))
  {
    var (day, parse) := k;
    var start, end := parse(t.startDate), parse(t.endDate);
    start.Some? && end.Some? && DayNumber(start.value) <= day <= DayNumber(end.value)
  }

  /** One cell of the month grid. */
  datatype Cell = Blank | DayCell(day: int, trips: seq<TripRoutes.Trip>)

  /** The empty cells before the first day of the month. */
  method BlankCells(n: nat) returns (cells: seq<Cell>)
    ensures |cells| == n
    ensures forall k :: 0 <= k < n ==> cells[k] == Blank
  {
    cells := [];
    for i := 0 to n
      invariant |cells| == i
      invariant forall k :: 0 <= k < i ==> cells[k] == Blank
    {
      cells := cells + [Blank];
    }
  }

  class CalendarView {
    var current: CalDate
    var trips: seq<TripRoutes.Trip>
    /** `new Date(s)` followed by `setHours(0, 0, 0, 0)`: the local day a
        date string denotes, or None for an invalid date. */
    const parse: string -> Option<CalDate>

    ghost predicate Valid()
      reads this
    {
      ValidDate(current)
    }

    constructor(today: CalDate, trips: seq<TripRoutes.Trip>, parse: string -> Option<CalDate>)
      requires ValidDate(today)
      ensures Valid() && current == today && this.trips == trips && this.parse == parse
    {
      current := today;
      this.trips := trips;
      this.parse := parse;
    }

    /** `changeMonth(offset)`: day 1 of the month `offset` months away from
        the current month, whose year a two-digit year is read as 19yy. */
    method ChangeMonth(offset: int)
      requires Valid()
      modifies this
      ensures Valid()
      ensures MonthIndex(current.year, current.month) == MonthIndex(FullYear(old(current.year)), old(current.month)) + offset
      ensures !(0 <= old(current.year) <= 99) ==>
        MonthIndex(current.year, current.month) == old(MonthIndex(current.year, current.month)) + offset
      ensures current.day == 1 && trips == old(trips)
    {
      MonthStart(FullYear(current.year), current.month + offset);
      current := MakeDate(current.year, current.month + offset, 1);
    }

    /** `isDateInTrip(day, trip)`, compared at day granularity. The day
        `new Date(year, month, day)` denotes has the day number of the
        triple with its year read by FullYear (see MakeDate), which is what
        is compared. */
    predicate IsDateInTrip(day: int, t: TripRoutes.Trip)
      reads this
    {
      Covers(t, (DayNumber(CalDate(FullYear(current.year), current.month, day)), parse))
    }

    function DailyTrips(day: int): (r: seq<TripRoutes.Trip>)
      reads this
      ensures forall t :: t in r <==> t in trips && IsDateInTrip(day, t)
      ensures SubsequenceOf(r, trips)
      ensures forall t :: multiset(r)[t] == if IsDateInTrip(day, t) then multiset(trips)[t] else 0
    {
      FilterExact(trips, Covers, (DayNumber(CalDate(FullYear(current.year), current.month, day)), parse));
      Filter(trips, Covers, (DayNumber(CalDate(FullYear(current.year), current.month, day)), parse))
    }

    /** `renderCalendarDays()`: `firstDay` blank cells, then one cell per
        day of the month with the trips covering it. */
    method RenderCalendarDays() returns (cells: seq<Cell>)
      requires Valid()
      ensures |cells| == GetFirstDayOfMonth(current) + GetDaysInMonth(current) <= 37
      ensures forall i :: 0 <= i < GetFirstDayOfMonth(current) ==> cells[i] == Blank
      ensures forall day :: 1 <= day <= GetDaysInMonth(current) ==>
        cells[GetFirstDayOfMonth(current) + day - 1] == DayCell(day, DailyTrips(day))
    {
      var daysInMonth := GetDaysInMonth(current);
      var firstDay := GetFirstDayOfMonth(current);
      cells := MonthCells(firstDay, daysInMonth);
      forall day | 1 <= day <= GetDaysInMonth(current)
        ensures cells[GetFirstDayOfMonth(current) + day - 1] == DayCell(day, DailyTrips(day))
      {
        assert cells[firstDay + day - 1] == DayCell(day, DailyTrips(day));
      }
    }

    /** The two loops of `renderCalendarDays`: the blanks, then the days. */
    method MonthCells(firstDay: nat, daysInMonth: nat) returns (cells: seq<Cell>)
      ensures |cells| == firstDay + daysInMonth
      ensures forall i :: 0 <= i < firstDay ==> cells[i] == Blank
      ensures forall day :: 1 <= day <= daysInMonth ==>
        cells[firstDay + day - 1] == DayCell(day, DailyTrips(day))
    {
      cells := BlankCells(firstDay);
      for day := 1 to daysInMonth + 1
        invariant |cells| == firstDay + day - 1
        invariant forall i :: 0 <= i < firstDay ==> cells[i] == Blank
        invariant forall d :: 1 <= d < day ==> cells[firstDay + d - 1] == DayCell(d, DailyTrips(d))
      {
        cells := cells + [DayCell(day, DailyTrips(day))];
      }
    }
  }

  /** A trip whose dates parse covers its first and its last day, and no
      day before it starts. */
  lemma CoversInclusive(t: TripRoutes.Trip, parse: string -> Option<CalDate>)
    requires parse(t.startDate).Some? && parse(t.endDate).Some?
    requires CalLe(parse(t.startDate).value, parse(t.endDate).value)
    requires ValidDate(parse(t.startDate).value) && ValidDate(parse(t.endDate).value)
    ensures Covers(t, (DayNumber(parse(t.startDate).value), parse))
    ensures Covers(t, (DayNumber(parse(t.endDate).value), parse))
    ensures !Covers(t, (DayNumber(parse(t.startDate).value) - 1, parse))
  {
    DayNumberOrder(parse(t.startDate).value, parse(t.endDate).value);
  }

  /** Moving one month forward and one back returns to the same month of
      the year the current year is read as: December of year 99 goes to
      January 2000 and back to December 1999. The one exception is December
      of year -1, which goes to January of year 0, read as 1900, and back to
      December 1899. */
  method ChangeMonthRoundTrip(view: CalendarView)
    requires view.Valid()
    modifies view
    ensures !(old(view.current.year) == -1 && old(view.current.month) == 11) ==>
      view.current.year == FullYear(old(view.current.year)) && view.current.month == old(view.current.month)
    ensures old(view.current.year) == -1 && old(view.current.month) == 11 ==>
      view.current.year == 1899 && view.current.month == 11
    ensures view.current.day == 1
  {
    var y0, m0 := view.current.year, view.current.month;
    view.ChangeMonth(1);
    var y1, m1 := view.current.year, view.current.month;
    if m0 < 11 {
      assert y1 == FullYear(y0) && m1 == m0 + 1;
    } else {
      assert y1 == FullYear(y0) + 1 && m1 == 0;
    }
    view.ChangeMonth(-1);
  }
}
