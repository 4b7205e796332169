/** `CalendarViewModel`: the calendar screen's state (shown month, shown
    week, selected day, view type) and its navigation, plus the todos that
    count as calendar events and their lookup by day. The clock is the
    parameter `today`. */
module CalendarView {
  import opened Wrappers
  import opened Dates
  import opened Seqs
  import opened Models

  // ---------------------------------------------------------------------
  // YearMonth

  datatype YearMonthValue = YearMonthValue(year: int, month: int)

  /** java.time.YearMonth: a year and a month 1..12. */
  type YearMonth = ym: YearMonthValue | 1 <= ym.month <= 12 witness YearMonthValue(1970, 1)

  function YearMonthOf(d: LocalDate): (r: YearMonth)
    ensures r.year == d.year && r.month == d.month
  {
    YearMonthValue(d.year, d.month)
  }

  /** `plusMonths(1)`: the next month, rolling December into January. */
  function NextMonthOf(ym: YearMonth): (r: YearMonth)
    ensures 12 * r.year + r.month == 12 * ym.year + ym.month + 1
  {
    if ym.month == 12 then YearMonthValue(ym.year + 1, 1) else YearMonthValue(ym.year, ym.month + 1)
  }

  /** `minusMonths(1)`: the previous month, rolling January into December. */
  function PrevMonthOf(ym: YearMonth): (r: YearMonth)
    ensures 12 * r.year + r.month == 12 * ym.year + ym.month - 1
  {
    if ym.month == 1 then YearMonthValue(ym.year - 1, 12) else YearMonthValue(ym.year, ym.month - 1)
  }

  /** Month stepping forwards and backwards are inverse. */
  lemma MonthStepsInverse(ym: YearMonth)
    ensures NextMonthOf(PrevMonthOf(ym)) == ym
    ensures PrevMonthOf(NextMonthOf(ym)) == ym
  {
  }

  /** `YearMonth.atDay(day)`. */
  function AtDay(ym: YearMonth, day: int): (r: LocalDate)
    requires 1 <= day <= DaysInMonth(ym.year, ym.month)
    ensures r.year == ym.year && r.month == ym.month && r.day == day
  {
    Date(ym.year, ym.month, day)
  }

  // ---------------------------------------------------------------------
  // The current week

  /** `getCurrentWeek`: the Monday on or before today and the Sunday six
      days later. */
  function CurrentWeek(today: LocalDate): (r: (LocalDate, LocalDate))
    ensures Weekday(r.0) == 1 && Weekday(r.1) == 7
    ensures EpochDay(r.1) == EpochDay(r.0) + 6
    ensures EpochDay(r.0) <= EpochDay(today) <= EpochDay(r.1)
    ensures EpochDay(today) - EpochDay(r.0) == Weekday(today) - 1
  {
    var start := MinusDays(today, Weekday(today) - 1);
    WeekdayWithinWeek(today, -(Weekday(today) - 1));
    var end := PlusDays(start, 6);
    WeekdayWithinWeek(start, 6);
    (start, end)
  }

  /** The week window is the same for every day of one ISO week. */
  lemma CurrentWeekOfWeekday(today: LocalDate, k: int)
    requires 0 <= k < 8 - Weekday(today)
    ensures CurrentWeek(PlusDays(today, k)) == CurrentWeek(today)
  {
    var other := PlusDays(today, k);
    WeekdayWithinWeek(today, k);
    var a, b := CurrentWeek(other), CurrentWeek(today);
    assert EpochDay(a.0) == EpochDay(b.0);
    EpochOrder(a.0, b.0);
    assert EpochDay(a.1) == EpochDay(b.1);
    EpochOrder(a.1, b.1);
  }

  // ---------------------------------------------------------------------
  // UI state

  datatype CalendarViewType = MONTH | WEEK | DAY | AGENDA

  /** `CalendarUiState` without the display text of the month. */
  datatype CalendarUiState = CalendarUiState(
    currentMonth: YearMonth,
    currentWeek: (LocalDate, LocalDate),
    selectedDate: LocalDate,
    viewType: CalendarViewType,
    isLoading: bool,
    error: Option<string>)

  /** The state a fresh view model starts from on `today`. */
  function InitialState(today: LocalDate): (s: CalendarUiState)
    ensures s.currentMonth == YearMonthOf(today) && s.selectedDate == today
    ensures s.viewType == MONTH && !s.isLoading && s.error.None?
    ensures s.currentWeek == CurrentWeek(today)
    ensures EpochDay(s.currentWeek.0) <= EpochDay(today) <= EpochDay(s.currentWeek.1)
  {
    CalendarUiState(YearMonthOf(today), CurrentWeek(today), today, MONTH, false, None)
  }

  function PreviousMonth(s: CalendarUiState): (r: CalendarUiState)
    ensures r == s.(currentMonth := PrevMonthOf(s.currentMonth))
  {
    s.(currentMonth := PrevMonthOf(s.currentMonth))
  }

  function NextMonth(s: CalendarUiState): (r: CalendarUiState)
    ensures r == s.(currentMonth := NextMonthOf(s.currentMonth))
  {
    s.(currentMonth := NextMonthOf(s.currentMonth))
  }

  /** `previousWeek`: both ends of the window move back seven days. */
  function PreviousWeek(s: CalendarUiState): (r: CalendarUiState)
    ensures r == s.(currentWeek := r.currentWeek)
    ensures EpochDay(r.currentWeek.0) == EpochDay(s.currentWeek.0) - 7
    ensures EpochDay(r.currentWeek.1) == EpochDay(s.currentWeek.1) - 7
  {
    s.(currentWeek := (MinusDays(s.currentWeek.0, 7), MinusDays(s.currentWeek.1, 7)))
  }

  /** `nextWeek`: both ends of the window move on seven days. */
  function NextWeek(s: CalendarUiState): (r: CalendarUiState)
    ensures r == s.(currentWeek := r.currentWeek)
    ensures EpochDay(r.currentWeek.0) == EpochDay(s.currentWeek.0) + 7
    ensures EpochDay(r.currentWeek.1) == EpochDay(s.currentWeek.1) + 7
  {
    s.(currentWeek := (PlusDays(s.currentWeek.0, 7), PlusDays(s.currentWeek.1, 7)))
  }

  /** Stepping `n` days and back returns to the start. */
  lemma DaysRoundTrip(d: LocalDate, n: int)
    ensures PlusDays(PlusDays(d, -n), n) == d
    ensures PlusDays(PlusDays(d, n), -n) == d
  {
    EpochOrder(PlusDays(PlusDays(d, -n), n), d);
    EpochOrder(PlusDays(PlusDays(d, n), -n), d);
  }

  /** Week navigation steps are inverse. */
  lemma WeekNavigationInverse(s: CalendarUiState)
    ensures NextWeek(PreviousWeek(s)) == s && PreviousWeek(NextWeek(s)) == s
  {
    var (a, b) := s.currentWeek;
    DaysRoundTrip(a, 7);
    DaysRoundTrip(b, 7);
    assert NextWeek(PreviousWeek(s)).currentWeek == (a, b);
    assert PreviousWeek(NextWeek(s)).currentWeek == (a, b);
  }

  /** Month navigation steps are inverse. */
  lemma MonthNavigationInverse(s: CalendarUiState)
    ensures NextMonth(PreviousMonth(s)) == s && PreviousMonth(NextMonth(s)) == s
  {
    MonthStepsInverse(s.currentMonth);
  }

  /** Moving a week keeps the weekday the window starts on. */
  lemma WeekNavigationWeekday(s: CalendarUiState)
    ensures Weekday(NextWeek(s).currentWeek.0) == Weekday(s.currentWeek.0)
    ensures Weekday(PreviousWeek(s).currentWeek.0) == Weekday(s.currentWeek.0)
  {
    WeekdayPlusWeek(s.currentWeek.0);
  }

  /** `goToToday`. */
  function GoToToday(s: CalendarUiState, today: LocalDate): (r: CalendarUiState)
    ensures r == s.(currentMonth := YearMonthOf(today), currentWeek := CurrentWeek(today), selectedDate := today)
    ensures EpochDay(r.currentWeek.0) <= EpochDay(today) <= EpochDay(r.currentWeek.1)
  {
    s.(currentMonth := YearMonthOf(today), currentWeek := CurrentWeek(today), selectedDate := today)
  }

  function SelectDate(s: CalendarUiState, date: LocalDate): (r: CalendarUiState)
    ensures r.selectedDate == date
    ensures r.(selectedDate := s.selectedDate) == s
  {
    s.(selectedDate := date)
  }

  function SetViewType(s: CalendarUiState, v: CalendarViewType): (r: CalendarUiState)
    ensures r.viewType == v
    ensures r.(viewType := s.viewType) == s
  {
    s.(viewType := v)
  }

  // ---------------------------------------------------------------------
  // Events

  predicate IsDated(t: EnhancedTodo) {
    t.date.Some? || t.dueDate.Some?
  }

  /** The key `dueDate ?: date`. */
  function EventKey(t: EnhancedTodo): SortKey {
    SortKey(0, if t.dueDate.Some? then t.dueDate.value else t.date.GetOr(""))
  }

  /** `events`: the dated todos, ordered by due date, else planned date,
      as text; equal keys keep their stored order. */
  function Events(todos: seq<EnhancedTodo>): (r: seq<EnhancedTodo>)
    ensures multiset(r) == multiset(Filter(todos, IsDated))
    ensures forall t :: t in r <==> t in todos && IsDated(t)
    ensures forall i, j :: 0 <= i < j < |r| ==> KeyLe(EventKey(r[i]), EventKey(r[j]))
    ensures forall k :: WithKey(r, EventKey, k) == WithKey(Filter(todos, IsDated), EventKey, k)
  {
    var dated := Filter(todos, IsDated);
    var r := SortBy(dated, EventKey);
    FilterMembers(todos, IsDated);
    SortBySorted(dated, EventKey);
    forall k {
      SortByStable(dated, EventKey, k);
    }
    assert forall t :: t in r <==> t in multiset(dated);
    r
  }

  /** A todo is on `d` when it is planned or due that day. */
  predicate OnDate(t: EnhancedTodo, d: LocalDate) {
    t.date == Some(ToString(d)) || t.dueDate == Some(ToString(d))
  }

  /** `getEventsForDate` (and `todosForSelectedDate` for the selected day). */
  function EventsForDate(events: seq<EnhancedTodo>, d: LocalDate): (r: seq<EnhancedTodo>)
    ensures IsSubsequence(r, events)
    ensures forall t :: t in r <==> t in events && OnDate(t, d)
    ensures forall t :: multiset(r)[t] == if OnDate(t, d) then multiset(events)[t] else 0
  {
    FilterCounts(events, t => OnDate(t, d));
    FilterIsSubsequence(events, t => OnDate(t, d));
    FilterMembers(events, t => OnDate(t, d));
    Filter(events, t => OnDate(t, d))
  }

  /** An event is listed on the days it is planned or due, and on no other
      day with a four-digit year. */
  lemma EventDays(events: seq<EnhancedTodo>, t: EnhancedTodo, d: LocalDate)
    requires t in events && 0 <= d.year <= 9999
    ensures t in EventsForDate(events, d) <==>
      (t.date.Some? && Parse(t.date.value) == Some(d)) || (t.dueDate.Some? && Parse(t.dueDate.value) == Some(d))
  {
    if t.date.Some? {
      TextIsDate(t.date.value, d);
    }
    if t.dueDate.Some? {
      TextIsDate(t.dueDate.value, d);
    }
  }

  /** `getEventsForWeek`: one entry per day from `startDate` to `endDate`
      inclusive, each holding that day's events. */
  method EventsForWeek(events: seq<EnhancedTodo>, startDate: LocalDate, endDate: LocalDate)
    returns (result: map<LocalDate, seq<EnhancedTodo>>)
    ensures forall d: LocalDate :: d in result <==> InRange(d, startDate, endDate)
    ensures forall d :: d in result ==> result[d] == EventsForDate(events, d)
    ensures IsBefore(endDate, startDate) ==> result == map[]
  {
    result := map[];
    var current := startDate;
    EpochOrder(endDate, current);
    while !IsBefore(endDate, current)
      invariant EpochDay(startDate) <= EpochDay(current)
      invariant EpochDay(current) <= EpochDay(endDate) + 1 || current == startDate
      invariant IsBefore(endDate, current) <==> EpochDay(endDate) < EpochDay(current)
      invariant forall d :: d in result <==> EpochDay(startDate) <= EpochDay(d) < EpochDay(current)
      invariant forall d :: d in result ==> result[d] == EventsForDate(events, d)
      decreases EpochDay(endDate) - EpochDay(current)
    {
      var next := PlusDays(current, 1);
      forall d: LocalDate
        ensures d in result[current := EventsForDate(events, current)] <==>
          EpochDay(startDate) <= EpochDay(d) < EpochDay(next)
      {
        EpochOrder(d, current);
      }
      result := result[current := EventsForDate(events, current)];
      current := next;
      EpochOrder(endDate, current);
    }
    EpochOrder(endDate, startDate);
    assert EpochDay(current) == EpochDay(endDate) + 1 || EpochDay(endDate) < EpochDay(startDate);
    forall d: LocalDate
      ensures d in result <==> InRange(d, startDate, endDate)
    {
      InRangeEpoch(d, startDate, endDate);
      assert d in result <==> EpochDay(startDate) <= EpochDay(d) < EpochDay(current);
    }
  }
}
