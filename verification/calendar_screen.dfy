/** The arithmetic of the calendar screen: the Monday-first month grid,
    the event dots of a day cell, the week strip, the view-type button and
    the previous/next arrows. Drawing is not modelled. */
module CalendarScreen {
  import opened Wrappers
  import opened Dates
  import opened Models
  import opened CalendarView

  // ---------------------------------------------------------------------
  // Month grid

  /** The number of grid rows for a month of `dim` days whose first day
      has ISO weekday `firstDow`. */
  function Rows(dim: int, firstDow: int): int
    requires 28 <= dim <= 31 && 1 <= firstDow <= 7
  {
    (dim + firstDow - 1) / 7 + 1
  }

  /** The day number shown in row `w`, column `c` (Monday = column 0);
      it is a day of the month only when it lies in 1..dim. */
  function CellDay(w: int, c: int, firstDow: int): int {
    w * 7 + c - firstDow + 2
  }

  function FirstWeekday(ym: YearMonth): (r: int)
    ensures 1 <= r <= 7
  {
    Weekday(AtDay(ym, 1))
  }

  function MonthLength(ym: YearMonth): (r: int)
    ensures 28 <= r <= 31
  {
    DaysInMonth(ym.year, ym.month)
  }

  /** The date a cell shows, or `None` for a blank cell. */
  function Cell(ym: YearMonth, w: int, c: int): (r: Option<LocalDate>)
    ensures r.Some? <==> 1 <= CellDay(w, c, FirstWeekday(ym)) <= MonthLength(ym)
    ensures r.Some? ==>
      r.value.year == ym.year && r.value.month == ym.month && r.value.day == CellDay(w, c, FirstWeekday(ym))
  {
    var day := CellDay(w, c, FirstWeekday(ym));
    if 1 <= day <= MonthLength(ym) then Some(AtDay(ym, day)) else None
  }

  /** The month grid, row by row, seven cells a row. */
  function MonthGrid(ym: YearMonth): (g: seq<seq<Option<LocalDate>>>)
    ensures |g| == Rows(MonthLength(ym), FirstWeekday(ym))
    ensures forall w :: 0 <= w < |g| ==> |g[w]| == 7
    ensures forall w, c :: 0 <= w < |g| && 0 <= c < 7 ==> g[w][c] == Cell(ym, w, c)
  {
    seq(Rows(MonthLength(ym), FirstWeekday(ym)), (w: int) => seq(7, (c: int) => Cell(ym, w, c)))
  }

  /** The epoch day of a day of the month is that of the first plus the
      days in between. */
  lemma DayOfMonth(ym: YearMonth, day: int)
    requires 1 <= day <= MonthLength(ym)
    ensures AtDay(ym, day) == PlusDays(AtDay(ym, 1), day - 1)
  {
    EpochOrder(AtDay(ym, day), PlusDays(AtDay(ym, 1), day - 1));
  }

  /** The column arithmetic: `(firstDow - 1 + day - 1) % 7` is the column. */
  lemma ColumnOfDay(w: int, c: int, firstDow: int)
    requires 0 <= c < 7
    ensures (firstDow - 1 + (CellDay(w, c, firstDow) - 1)) % 7 == c
  {
    ModShift(c, w);
  }

  /** A date's column is its weekday: column 0 holds Mondays. */
  lemma CellWeekday(ym: YearMonth, w: int, c: int)
    requires 0 <= c < 7 && Cell(ym, w, c).Some?
    ensures Weekday(Cell(ym, w, c).value) == c + 1
  {
    var fd := FirstWeekday(ym);
    var day := CellDay(w, c, fd);
    DayOfMonth(ym, day);
    WeekdayPlusDays(AtDay(ym, 1), day - 1);
    ColumnOfDay(w, c, fd);
  }

  /** Every day of the month appears in the grid, at row
      `(day + firstDow - 2) / 7` and column `(day + firstDow - 2) % 7`. */
  lemma EveryDayPlaced(ym: YearMonth, day: int)
    requires 1 <= day <= MonthLength(ym)
    ensures var fd := FirstWeekday(ym);
      var w, c := (day + fd - 2) / 7, (day + fd - 2) % 7;
      && 0 <= w < |MonthGrid(ym)| && 0 <= c < 7
      && MonthGrid(ym)[w][c] == Some(AtDay(ym, day))
  {
    var fd := FirstWeekday(ym);
    var w, c := (day + fd - 2) / 7, (day + fd - 2) % 7;
    assert day + fd - 2 == 7 * w + c;
    assert CellDay(w, c, fd) == day;
  }

  /** No date appears in two cells. */
  lemma CellsDistinct(ym: YearMonth, w: int, c: int, w': int, c': int)
    requires 0 <= c < 7 && 0 <= c' < 7
    requires Cell(ym, w, c).Some? && Cell(ym, w, c) == Cell(ym, w', c')
    ensures w == w' && c == c'
  {
    var fd := FirstWeekday(ym);
    assert 7 * w + c == 7 * w' + c';
  }

  predicate BlankRow(row: seq<Option<LocalDate>>) {
    forall c :: 0 <= c < |row| ==> row[c].None?
  }

  /** The row count leaves a wholly blank last row exactly when the month
      ends on a Sunday; every other row shows at least one day. */
  lemma BlankLastRow(ym: YearMonth)
    ensures var g := MonthGrid(ym);
      BlankRow(g[|g| - 1]) <==> (MonthLength(ym) + FirstWeekday(ym) - 1) % 7 == 0
    ensures var g := MonthGrid(ym);
      forall w :: 0 <= w < |g| - 1 ==> g[w][6].Some? || g[w][0].Some?
  {
    var g: seq<seq<Option<LocalDate>>> := MonthGrid(ym);
    var dim, fd := MonthLength(ym), FirstWeekday(ym);
    var n := dim + fd - 1;
    var last := |g| - 1;
    assert last == n / 7;
    assert CellDay(last, 0, fd) == 7 * (n / 7) - fd + 2;
    if n % 7 == 0 {
      assert CellDay(last, 0, fd) == n - fd + 2 == dim + 1;
    } else {
      assert 1 <= CellDay(last, 0, fd) <= dim;
      assert g[last][0].Some?;
    }
    forall w | 0 <= w < last
      ensures g[w][6].Some? || g[w][0].Some?
    {
      if w == 0 {
        assert 1 <= CellDay(0, 6, fd) <= dim;
      } else {
        assert 1 <= CellDay(w, 0, fd) <= dim;
      }
    }
  }

  // ---------------------------------------------------------------------
  // Day cells

  /** The number of event dots under a day: one per event, at most three. */
  function Dots(eventCount: nat): (r: nat)
    ensures r <= 3 && r <= eventCount
    ensures r == eventCount || r == 3
  {
    if eventCount < 3 then eventCount else 3
  }

  /** What a day cell shows: its event count, whether one of them is of
      high priority (red dots), and the dot count. */
  datatype DayCellInfo = DayCellInfo(eventCount: nat, hasHighPriority: bool, dots: nat)

  function DayCell(events: seq<EnhancedTodo>, d: LocalDate): (r: DayCellInfo)
    ensures r.eventCount == |EventsForDate(events, d)|
    ensures r.hasHighPriority <==> exists t :: t in events && OnDate(t, d) && t.priority == HIGH
    ensures r.dots <= 3 && (r.eventCount > 0 <==> r.dots > 0)
  {
    var es := EventsForDate(events, d);
    DayCellInfo(|es|, exists t :: t in es && t.priority == HIGH, Dots(|es|))
  }

  // ---------------------------------------------------------------------
  // Week strip

  /** `n` consecutive days from `start`. */
  function DaysFrom(start: LocalDate, n: nat): (r: seq<LocalDate>)
    ensures |r| == n
  {
    seq(n, (i: int) => PlusDays(start, i))
  }

  /** The dates of the week strip: every day from `startDate` to `endDate`
      inclusive, in order; none when the range is empty. */
  method WeekDates(startDate: LocalDate, endDate: LocalDate) returns (dates: seq<LocalDate>)
    ensures |dates| == if EpochDay(endDate) < EpochDay(startDate) then 0
      else EpochDay(endDate) - EpochDay(startDate) + 1
    ensures forall i :: 0 <= i < |dates| ==> EpochDay(dates[i]) == EpochDay(startDate) + i
    ensures forall d: LocalDate :: d in dates <==> InRange(d, startDate, endDate)
  {
    dates := [];
    var current := startDate;
    EpochOrder(endDate, current);
    while !IsBefore(endDate, current)
      invariant EpochDay(current) == EpochDay(startDate) + |dates|
      invariant EpochDay(current) <= EpochDay(endDate) + 1 || current == startDate
      invariant IsBefore(endDate, current) <==> EpochDay(endDate) < EpochDay(current)
      invariant forall i :: 0 <= i < |dates| ==> EpochDay(dates[i]) == EpochDay(startDate) + i
      decreases EpochDay(endDate) - EpochDay(current)
    {
      dates := dates + [current];
      current := PlusDays(current, 1);
      EpochOrder(endDate, current);
    }
    EpochOrder(endDate, startDate);
    forall d: LocalDate
      ensures d in dates <==> InRange(d, startDate, endDate)
    {
      InRangeEpoch(d, startDate, endDate);
      if InRange(d, startDate, endDate) {
        var i := EpochDay(d) - EpochDay(startDate);
        EpochOrder(d, dates[i]);
      }
    }
  }

  /** The strip of the current week runs Monday to Sunday, with today in it. */
  lemma CurrentWeekStrip(today: LocalDate)
    ensures var (a, b) := CurrentWeek(today);
      var days := DaysFrom(a, 7);
      && days[6] == b
      && (forall i :: 0 <= i < 7 ==> Weekday(days[i]) == i + 1)
      && today in days
  {
    var (a, b) := CurrentWeek(today);
    var days := DaysFrom(a, 7);
    EpochOrder(days[6], b);
    forall i | 0 <= i < 7
      ensures Weekday(days[i]) == i + 1
    {
      WeekdayWithinWeek(a, i);
    }
    var k := Weekday(today) - 1;
    EpochOrder(days[k], today);
  }

  // ---------------------------------------------------------------------
  // View-type button and arrows

  /** The view-type button: month, week, agenda, day, then month again. */
  function NextViewType(v: CalendarViewType): (r: CalendarViewType)
    ensures r != v
  {
    match v
    case MONTH => WEEK
    case WEEK => AGENDA
    case AGENDA => DAY
    case DAY => MONTH
  }

  /** Four presses come back, passing through every view type once. */
  lemma ViewCycle(v: CalendarViewType)
    ensures NextViewType(NextViewType(NextViewType(NextViewType(v)))) == v
    ensures |{v, NextViewType(v), NextViewType(NextViewType(v)), NextViewType(NextViewType(NextViewType(v)))}| == 4
  {
    match v
    case MONTH => assert {MONTH, WEEK, AGENDA, DAY} == {MONTH} + {WEEK} + {AGENDA} + {DAY};
    case WEEK => assert {WEEK, AGENDA, DAY, MONTH} == {MONTH} + {WEEK} + {AGENDA} + {DAY};
    case AGENDA => assert {AGENDA, DAY, MONTH, WEEK} == {MONTH} + {WEEK} + {AGENDA} + {DAY};
    case DAY => assert {DAY, MONTH, WEEK, AGENDA} == {MONTH} + {WEEK} + {AGENDA} + {DAY};
  }

  /** The left arrow: a month back in month view, a week back in week view,
      otherwise the selected day moves back one day. */
  function OnPrevious(s: CalendarUiState): (r: CalendarUiState)
    ensures r.viewType == s.viewType && r.isLoading == s.isLoading && r.error == s.error
    ensures s.viewType == MONTH ==>
      r == s.(currentMonth := r.currentMonth)
      && 12 * r.currentMonth.year + r.currentMonth.month == 12 * s.currentMonth.year + s.currentMonth.month - 1
    ensures s.viewType == WEEK ==>
      r == s.(currentWeek := r.currentWeek)
      && EpochDay(r.currentWeek.0) == EpochDay(s.currentWeek.0) - 7
      && EpochDay(r.currentWeek.1) == EpochDay(s.currentWeek.1) - 7
    ensures s.viewType in {DAY, AGENDA} ==>
      r == s.(selectedDate := r.selectedDate)
      && EpochDay(r.selectedDate) == EpochDay(s.selectedDate) - 1
  {
    match s.viewType
    case MONTH => PreviousMonth(s)
    case WEEK => PreviousWeek(s)
    case _ => SelectDate(s, MinusDays(s.selectedDate, 1))
  }

  /** The right arrow, mirroring `OnPrevious`. */
  function OnNext(s: CalendarUiState): (r: CalendarUiState)
    ensures r.viewType == s.viewType && r.isLoading == s.isLoading && r.error == s.error
    ensures s.viewType == MONTH ==>
      r == s.(currentMonth := r.currentMonth)
      && 12 * r.currentMonth.year + r.currentMonth.month == 12 * s.currentMonth.year + s.currentMonth.month + 1
    ensures s.viewType == WEEK ==>
      r == s.(currentWeek := r.currentWeek)
      && EpochDay(r.currentWeek.0) == EpochDay(s.currentWeek.0) + 7
      && EpochDay(r.currentWeek.1) == EpochDay(s.currentWeek.1) + 7
    ensures s.viewType in {DAY, AGENDA} ==>
      r == s.(selectedDate := r.selectedDate)
      && EpochDay(r.selectedDate) == EpochDay(s.selectedDate) + 1
  {
    match s.viewType
    case MONTH => NextMonth(s)
    case WEEK => NextWeek(s)
    case _ => SelectDate(s, PlusDays(s.selectedDate, 1))
  }

  /** The two arrows undo each other in every view. */
  lemma ArrowsInverse(s: CalendarUiState)
    ensures OnNext(OnPrevious(s)) == s
    ensures OnPrevious(OnNext(s)) == s
  {
    match s.viewType
    case MONTH => MonthNavigationInverse(s);
    case WEEK => WeekNavigationInverse(s);
    case _ => DaysRoundTrip(s.selectedDate, 1);
  }
}
