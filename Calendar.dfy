/** The month view of the calendar page (src/app/pages/calendar/calendar.component.ts). The
  * numbers a `Date` would supply (the month's first weekday, its length, the previous month's
  * length and today's date) are parameters. */
module Calendar {
  import opened Seqs

  /** An event on a given day; `month` is 0-based as in `Date.getMonth`. */
  datatype Event = Event(title: string, day: int, month: int, year: int, color: string)

  datatype Cell = Cell(date: int, isOtherMonth: bool, isToday: bool, events: seq<Event>)

  /** The page's fixed event list. */
  const UpcomingEvents: seq<Event> := [
    Event("Mid-term Exams", 15, 2, 2024, "#ef4444"),
    Event("Parent Meeting", 20, 2, 2024, "#3b82f6"),
    Event("Science Fair", 25, 2, 2024, "#10b981")
  ]

  function OnDay(day: int, month: int, year: int): Event -> bool {
    (e: Event) => e.day == day && e.month == month && e.year == year
  }

  /** `getEventsForDay`: the events on that day, in list order. */
  function EventsForDay(events: seq<Event>, day: int, month: int, year: int): (r: seq<Event>)
    ensures forall e :: e in r <==> e in events && e.day == day && e.month == month && e.year == year
    ensures IsSubsequence(r, events)
  {
    FilterSpec(events, OnDay(day, month, year));
    Filter(events, OnDay(day, month, year))
  }

  /** The previous month's last `firstDay` dates, ascending. */
  function LeadingCells(firstDay: nat, daysInPrevMonth: int): seq<Cell> {
    seq(firstDay, k => Cell(daysInPrevMonth - (firstDay - 1 - k), true, false, []))
  }

  /** The month's own dates, with today marked and the day's events attached. */
  function MonthCells(daysInMonth: nat, month: int, year: int,
                      todayDay: int, todayMonth: int, todayYear: int, events: seq<Event>): seq<Cell> {
    seq(daysInMonth, k => Cell(k + 1, false, k + 1 == todayDay && month == todayMonth && year == todayYear,
                                EventsForDay(events, k + 1, month, year)))
  }

  /** The next month's first dates, enough to fill six weeks. */
  function TrailingCells(count: int): seq<Cell> {
    seq(if count < 0 then 0 else count, k => Cell(k + 1, true, false, []))
  }

  function Grid(firstDay: nat, daysInMonth: nat, daysInPrevMonth: int, month: int, year: int,
                todayDay: int, todayMonth: int, todayYear: int, events: seq<Event>): seq<Cell> {
    var head := LeadingCells(firstDay, daysInPrevMonth) +
                MonthCells(daysInMonth, month, year, todayDay, todayMonth, todayYear, events);
    head + TrailingCells(42 - |head|)
  }

  /** Six weeks of seven days for any real month: the first weekday is 0..6 and a month has
    * at most 31 days. */
  lemma GridHasSixWeeks(firstDay: nat, daysInMonth: nat, daysInPrevMonth: int, month: int, year: int,
                        todayDay: int, todayMonth: int, todayYear: int, events: seq<Event>)
    requires firstDay <= 6 && daysInMonth <= 31
    ensures |Grid(firstDay, daysInMonth, daysInPrevMonth, month, year, todayDay, todayMonth, todayYear, events)| == 42
  {
  }

  /** Cell by cell: the leading cells count up to the previous month's last date, then come
    * this month's dates from 1, then the next month's from 1; only this month's cells can be
    * today or carry events. */
  lemma GridCells(firstDay: nat, daysInMonth: nat, daysInPrevMonth: int, month: int, year: int,
                  todayDay: int, todayMonth: int, todayYear: int, events: seq<Event>)
    ensures var g := Grid(firstDay, daysInMonth, daysInPrevMonth, month, year, todayDay, todayMonth, todayYear, events);
      && (firstDay > 0 ==> g[firstDay - 1].date == daysInPrevMonth)
      && (forall k :: 0 <= k < firstDay ==> g[k] == Cell(daysInPrevMonth - firstDay + 1 + k, true, false, []))
      && (forall k :: firstDay <= k < firstDay + daysInMonth ==>
            g[k].date == k - firstDay + 1 && !g[k].isOtherMonth &&
            g[k].events == EventsForDay(events, k - firstDay + 1, month, year))
      && (forall k :: firstDay + daysInMonth <= k < |g| ==> g[k] == Cell(k - firstDay - daysInMonth + 1, true, false, []))
      && (forall k :: 0 <= k < |g| && g[k].isOtherMonth ==> !g[k].isToday && g[k].events == [])
  {
    var g := Grid(firstDay, daysInMonth, daysInPrevMonth, month, year, todayDay, todayMonth, todayYear, events);
    forall k | 0 <= k < |g|
      ensures k < firstDay ==> g[k] == Cell(daysInPrevMonth - firstDay + 1 + k, true, false, [])
      ensures firstDay <= k < firstDay + daysInMonth ==>
        g[k].date == k - firstDay + 1 && !g[k].isOtherMonth &&
        g[k].events == EventsForDay(events, k - firstDay + 1, month, year)
      ensures firstDay + daysInMonth <= k ==> g[k] == Cell(k - firstDay - daysInMonth + 1, true, false, [])
    {
      GridCell(firstDay, daysInMonth, daysInPrevMonth, month, year, todayDay, todayMonth, todayYear, events, k);
    }
  }

  /** One cell of the grid, read off the part it falls in. */
  lemma GridCell(firstDay: nat, daysInMonth: nat, daysInPrevMonth: int, month: int, year: int,
                 todayDay: int, todayMonth: int, todayYear: int, events: seq<Event>, k: int)
    requires 0 <= k < |Grid(firstDay, daysInMonth, daysInPrevMonth, month, year, todayDay, todayMonth, todayYear, events)|
    ensures var g := Grid(firstDay, daysInMonth, daysInPrevMonth, month, year, todayDay, todayMonth, todayYear, events);
      && (k < firstDay ==> g[k] == LeadingCells(firstDay, daysInPrevMonth)[k])
      && (firstDay <= k < firstDay + daysInMonth ==>
            g[k] == MonthCells(daysInMonth, month, year, todayDay, todayMonth, todayYear, events)[k - firstDay])
      && (firstDay + daysInMonth <= k ==> g[k] == TrailingCells(42 - firstDay - daysInMonth)[k - firstDay - daysInMonth])
  {
  }

  /** Exactly one cell is today when today falls in the shown month, and none otherwise. */
  lemma TodayIsMarkedOnce(firstDay: nat, daysInMonth: nat, daysInPrevMonth: int, month: int, year: int,
                          todayDay: int, todayMonth: int, todayYear: int, events: seq<Event>)
    ensures var g := Grid(firstDay, daysInMonth, daysInPrevMonth, month, year, todayDay, todayMonth, todayYear, events);
      && (forall k :: 0 <= k < |g| && g[k].isToday ==> k == firstDay + todayDay - 1)
      && ((exists k :: 0 <= k < |g| && g[k].isToday) <==>
            month == todayMonth && year == todayYear && 1 <= todayDay <= daysInMonth)
  {
    var g := Grid(firstDay, daysInMonth, daysInPrevMonth, month, year, todayDay, todayMonth, todayYear, events);
    forall k | 0 <= k < |g| && g[k].isToday
      ensures k == firstDay + todayDay - 1
      ensures month == todayMonth && year == todayYear && 1 <= todayDay <= daysInMonth
    {
      GridCell(firstDay, daysInMonth, daysInPrevMonth, month, year, todayDay, todayMonth, todayYear, events, k);
    }
    if month == todayMonth && year == todayYear && 1 <= todayDay <= daysInMonth {
      GridCell(firstDay, daysInMonth, daysInPrevMonth, month, year, todayDay, todayMonth, todayYear, events,
               firstDay + todayDay - 1);
      assert g[firstDay + todayDay - 1].isToday;
    }
  }

  class CalendarScreen {
    var calendarDays: seq<Cell>

    constructor()
      ensures calendarDays == []
    {
      calendarDays := [];
    }

    /** `generateCalendar`: the grid is rebuilt from scratch by three counting loops. */
    method GenerateCalendar(firstDay: nat, daysInMonth: nat, daysInPrevMonth: int, month: int, year: int,
                            todayDay: int, todayMonth: int, todayYear: int)
      modifies this
      ensures calendarDays == Grid(firstDay, daysInMonth, daysInPrevMonth, month, year,
                                   todayDay, todayMonth, todayYear, UpcomingEvents)
    {
      ghost var lead := LeadingCells(firstDay, daysInPrevMonth);
      ghost var mid := MonthCells(daysInMonth, month, year, todayDay, todayMonth, todayYear, UpcomingEvents);
      calendarDays := [];
      PushLeading(firstDay, daysInPrevMonth);
      assert calendarDays == lead;
      PushMonth(daysInMonth, month, year, todayDay, todayMonth, todayYear, UpcomingEvents);
      assert calendarDays == lead + mid;
      PushTrailing();
    }

    /** The first loop: the previous month's last `firstDay` dates. */
    method PushLeading(firstDay: nat, daysInPrevMonth: int)
      modifies this
      ensures calendarDays == old(calendarDays) + LeadingCells(firstDay, daysInPrevMonth)
    {
      ghost var start := calendarDays;
      ghost var lead := LeadingCells(firstDay, daysInPrevMonth);
      var i: int := firstDay - 1;
      while i >= 0
        invariant -1 <= i <= firstDay - 1
        invariant calendarDays == start + lead[..firstDay - 1 - i]
      {
        assert lead[firstDay - 1 - i] == Cell(daysInPrevMonth - i, true, false, []);
        assert lead[..firstDay - 1 - i] + [lead[firstDay - 1 - i]] == lead[..firstDay - i];
        calendarDays := calendarDays + [Cell(daysInPrevMonth - i, true, false, [])];
        i := i - 1;
      }
      assert lead[..firstDay] == lead;
    }

    /** The second loop: this month's dates with today's mark and the day's events. */
    method PushMonth(daysInMonth: nat, month: int, year: int, todayDay: int, todayMonth: int, todayYear: int,
                     events: seq<Event>)
      modifies this
      ensures calendarDays == old(calendarDays) + MonthCells(daysInMonth, month, year, todayDay, todayMonth, todayYear, events)
    {
      ghost var start := calendarDays;
      ghost var mid := MonthCells(daysInMonth, month, year, todayDay, todayMonth, todayYear, events);
      for d := 1 to daysInMonth + 1
        invariant calendarDays == start + mid[..d - 1]
      {
        var isToday := d == todayDay && month == todayMonth && year == todayYear;
        var dayEvents := EventsForDay(events, d, month, year);
        assert mid[d - 1] == Cell(d, false, isToday, dayEvents);
        assert mid[..d - 1] + [mid[d - 1]] == mid[..d];
        calendarDays := calendarDays + [Cell(d, false, isToday, dayEvents)];
      }
      assert mid[..daysInMonth] == mid;
    }

    /** The third loop: the next month's first dates, up to 42 cells. */
    method PushTrailing()
      modifies this
      ensures calendarDays == old(calendarDays) + TrailingCells(42 - |old(calendarDays)|)
    {
      var remainingCells := 42 - |calendarDays|;
      ghost var start := calendarDays;
      ghost var tail := TrailingCells(remainingCells);
      var j := 1;
      while j <= remainingCells
        invariant 1 <= j <= |tail| + 1
        invariant calendarDays == start + tail[..j - 1]
      {
        assert tail[j - 1] == Cell(j, true, false, []);
        assert tail[..j - 1] + [tail[j - 1]] == tail[..j];
        calendarDays := calendarDays + [Cell(j, true, false, [])];
        j := j + 1;
      }
      assert tail[..|tail|] == tail;
    }
  }
}
