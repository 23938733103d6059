/**
 * Counting business days: days of a period that are neither Saturday, Sunday nor a company holiday.
 * Dates are day numbers from 1 January 1970, a Thursday.
 */
module BusinessDays {
  type Day = int

  /** A date's month and day, the part an annually repeating holiday is compared by. */
  datatype MonthDay = MonthDay(month: nat, day: nat)

  /** The holidays of a company: exact dates, and those that come back every year. */
  datatype Holidays = Holidays(exact: set<Day>, repeating: set<MonthDay>, monthDayOf: Day -> MonthDay)

  /** 0 for Sunday up to 6 for Saturday. */
  function Weekday(d: Day): (w: nat)
    ensures w < 7
  {
    (d + 4) % 7
  }

  predicate IsBusinessDay(d: Day, h: Holidays) {
    Weekday(d) != 0 && Weekday(d) != 6 && d !in h.exact && h.monthDayOf(d) !in h.repeating
  }

  /** The business days from `start` up to but not including `end`. */
  function DaysBefore(start: Day, end: Day, h: Holidays): set<Day> {
    set d | start <= d < end && IsBusinessDay(d, h)
  }

  function BusinessDaysOf(start: Day, end: Day, h: Holidays): set<Day> {
    DaysBefore(start, end + 1, h)
  }

  /** The loop, both ends included. */
  method CountBusinessDays(start: Day, end: Day, h: Holidays) returns (count: nat)
    ensures count == |BusinessDaysOf(start, end, h)|
  {
    count := 0;
    if end < start {
      assert BusinessDaysOf(start, end, h) == {};
      return;
    }
    assert DaysBefore(start, start, h) == {};
    var d := start;
    while d <= end
      invariant start <= d <= end + 1
      invariant count == |DaysBefore(start, d, h)|
    {
      OneMoreDay(start, d, h);
      var weekday := Weekday(d);
      if weekday != 0 && weekday != 6 && d !in h.exact && h.monthDayOf(d) !in h.repeating {
        count := count + 1;
      }
      d := d + 1;
    }
  }

  lemma OneMoreDay(start: Day, d: Day, h: Holidays)
    requires start <= d
    ensures |DaysBefore(start, d + 1, h)| == |DaysBefore(start, d, h)| + if IsBusinessDay(d, h) then 1 else 0
  {
    if IsBusinessDay(d, h) {
      assert DaysBefore(start, d + 1, h) == DaysBefore(start, d, h) + {d};
    } else {
      assert DaysBefore(start, d + 1, h) == DaysBefore(start, d, h);
    }
  }

  lemma OneDay(d: Day, h: Holidays)
    ensures |BusinessDaysOf(d, d, h)| == if IsBusinessDay(d, h) then 1 else 0
  {
    assert DaysBefore(d, d, h) == {};
    OneMoreDay(d, d, h);
  }

  /** The calendar: day 0 was a Thursday, and weekdays follow each other. */
  lemma Weekdays(d: Day)
    ensures Weekday(0) == 4
    ensures Weekday(d + 1) == if Weekday(d) == 6 then 0 else Weekday(d) + 1
  {
  }

  /** A new holiday takes its own day from the count if that was a business day of the period, and no other. */
  lemma HolidayTakesItsDay(start: Day, end: Day, h: Holidays, holiday: Day)
    ensures var counted, fewer := BusinessDaysOf(start, end, h), BusinessDaysOf(start, end, h.(exact := h.exact + {holiday}));
            fewer == counted - {holiday} && |fewer| == |counted| - if holiday in counted then 1 else 0
  {
    var counted, fewer := BusinessDaysOf(start, end, h), BusinessDaysOf(start, end, h.(exact := h.exact + {holiday}));
    assert fewer == counted - {holiday};
    if holiday in counted { assert counted == fewer + {holiday}; }
  }

  /** One that comes back every year takes every day of that date. */
  lemma RepeatingTakesItsDays(start: Day, end: Day, h: Holidays, date: MonthDay)
    ensures BusinessDaysOf(start, end, h.(repeating := h.repeating + {date})) ==
            set d | d in BusinessDaysOf(start, end, h) && h.monthDayOf(d) != date
  {
  }

  /** The two parts of a period have as many business days as the whole. */
  lemma SplitAddsUp(start: Day, middle: Day, end: Day, h: Holidays)
    requires start <= middle <= end
    ensures |BusinessDaysOf(start, end, h)| == |BusinessDaysOf(start, middle, h)| + |BusinessDaysOf(middle + 1, end, h)|
  {
    var left, right := BusinessDaysOf(start, middle, h), BusinessDaysOf(middle + 1, end, h);
    assert BusinessDaysOf(start, end, h) == left + right;
    assert left !! right;
  }

  /** A longer period never counts fewer. */
  lemma LongerCountsMore(start: Day, end: Day, start': Day, end': Day, h: Holidays)
    requires start' <= start && end <= end'
    ensures |BusinessDaysOf(start, end, h)| <= |BusinessDaysOf(start', end', h)|
  {
    var inner, outer := BusinessDaysOf(start, end, h), BusinessDaysOf(start', end', h);
    assert outer == inner + (outer - inner);
  }

  function NoHolidays(monthDayOf: Day -> MonthDay): Holidays {
    Holidays({}, {}, monthDayOf)
  }

  /** Any seven days in a row hold at most five business days, and five when no holiday falls on
      one of them. */
  lemma FiveInAWeek(start: Day, h: Holidays)
    ensures |BusinessDaysOf(start, start + 6, h)| <= 5
    ensures |BusinessDaysOf(start, start + 6, NoHolidays(h.monthDayOf))| == 5
  {
    var none := NoHolidays(h.monthDayOf);
    FiveWithoutHolidays(start, none);
    var some, all := BusinessDaysOf(start, start + 6, h), BusinessDaysOf(start, start + 6, none);
    assert all == some + (all - some);
  }

  lemma FiveWithoutHolidays(start: Day, none: Holidays)
    requires none.exact == {} && none.repeating == {}
    ensures |BusinessDaysOf(start, start + 6, none)| == 5
  {
    WithoutHolidays(start, 7, none);
    WeekHasTwoDaysOff(start);
  }

  function Off(d: Day): nat {
    if Weekday(d) == 0 || Weekday(d) == 6 then 1 else 0
  }

  /** The weekend days among the first `n` from `start` on. */
  function WeekendDays(start: Day, n: nat): nat {
    if n == 0 then 0 else WeekendDays(start, n - 1) + Off(start + n - 1)
  }

  /** Without holidays only weekends are left out. */
  lemma {:induction false} WithoutHolidays(start: Day, n: nat, none: Holidays)
    requires none.exact == {} && none.repeating == {}
    ensures |DaysBefore(start, start + n, none)| + WeekendDays(start, n) == n
  {
    if n == 0 {
      assert DaysBefore(start, start, none) == {};
    } else {
      WithoutHolidays(start, n - 1, none);
      OneMoreDay(start, start + n - 1, none);
    }
  }

  lemma WeekHasTwoDaysOff(start: Day)
    ensures WeekendDays(start, 7) == 2
  {
    assert WeekendDays(start, 1) == Off(start);
    assert WeekendDays(start, 2) == WeekendDays(start, 1) + Off(start + 1);
    assert WeekendDays(start, 3) == WeekendDays(start, 2) + Off(start + 2);
    assert WeekendDays(start, 4) == WeekendDays(start, 3) + Off(start + 3);
    assert WeekendDays(start, 5) == WeekendDays(start, 4) + Off(start + 4);
    assert WeekendDays(start, 6) == WeekendDays(start, 5) + Off(start + 5);
    assert WeekendDays(start, 7) == WeekendDays(start, 6) + Off(start + 6);
    TwoOfSeven(start);
  }

  lemma TwoOfSeven(d: Day)
    ensures Off(d) + Off(d + 1) + Off(d + 2) + Off(d + 3) + Off(d + 4) + Off(d + 5) + Off(d + 6) == 2
  {
    var w := Weekday(d);
    assert w in {0, 1, 2, 3, 4, 5, 6};
  }
}
