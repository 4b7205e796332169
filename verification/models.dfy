/** The records of the app's data layer: todos, goals, habits, smart lists
    and the per-user document that holds them. Kotlin enum constants keep
    their source spelling; `Long` and `Int` fields are unbounded here. */
module Models {
  import opened Wrappers
  import opened Dates

  // ---------------------------------------------------------------------
  // Todos

  /** Declared in ascending order, so the ordinal compares priorities. */
  datatype Priority = NONE | LOW | MEDIUM | HIGH

  function Ordinal(p: Priority): (n: int)
    ensures 0 <= n <= 3
    ensures p == NONE <==> n == 0
    ensures p == HIGH <==> n == 3
  {
    match p
    case NONE => 0
    case LOW => 1
    case MEDIUM => 2
    case HIGH => 3
  }

  datatype RepeatType = NoRepeat | DAILY | WEEKLY | MONTHLY | CustomRepeat

  datatype RepeatConfig = RepeatConfig(
    repeatType: RepeatType,
    interval: int,
    daysOfWeek: seq<int>,
    endDate: Option<string>)

  const DefaultRepeat: RepeatConfig := RepeatConfig(NoRepeat, 1, [], None)

  datatype Subtask = Subtask(
    id: string,
    title: string,
    isCompleted: bool,
    createdAt: int,
    completedAt: Option<int>)

  /** A task. `date` is the day it is planned for, `dueDate` its deadline,
      both `yyyy-MM-dd` text; `createdAt`/`completedAt` are epoch millis. */
  datatype EnhancedTodo = EnhancedTodo(
    id: string,
    title: string,
    description: string,
    isCompleted: bool,
    goalId: Option<string>,
    date: Option<string>,
    dueDate: Option<string>,
    dueTime: Option<string>,
    priority: Priority,
    tags: seq<string>,
    subtasks: seq<Subtask>,
    repeat: RepeatConfig,
    reminderTime: Option<string>,
    note: string,
    pomodoroCount: int,
    order: int,
    createdAt: int,
    completedAt: Option<int>,
    updatedAt: int)

  /** `EnhancedTodo()` with every constructor default. */
  const DefaultTodo: EnhancedTodo :=
    EnhancedTodo("", "", "", false, None, None, None, None, NONE, [], [],
                 DefaultRepeat, None, "", 0, 0, 0, None, 0)

  /** `isOverdue` against the day `today` stands for: an unfinished task
      whose due date parses and lies strictly before today. A due date
      that does not parse makes it false rather than an error. */
  predicate IsOverdue(t: EnhancedTodo, today: LocalDate) {
    if t.isCompleted || t.dueDate.None? then false
    else
      match Parse(t.dueDate.value)
      case Some(due) => IsBefore(due, today)
      case None => false
  }

  /** The cases in which a task is never overdue, and the one in which it is. */
  lemma IsOverdueCases(t: EnhancedTodo, today: LocalDate)
    ensures t.isCompleted ==> !IsOverdue(t, today)
    ensures t.dueDate.None? ==> !IsOverdue(t, today)
    ensures t.dueDate.Some? && Parse(t.dueDate.value).None? ==> !IsOverdue(t, today)
    ensures !t.isCompleted && t.dueDate.Some? && Parse(t.dueDate.value).Some? ==>
              (IsOverdue(t, today) <==> EpochDay(Parse(t.dueDate.value).value) < EpochDay(today))
  {
    if !t.isCompleted && t.dueDate.Some? && Parse(t.dueDate.value).Some? {
      EpochOrder(Parse(t.dueDate.value).value, today);
    }
  }

  /** A task due today, or later, is not overdue. */
  lemma DueTodayNotOverdue(t: EnhancedTodo, today: LocalDate)
    requires 0 <= today.year <= 9999
    requires t.dueDate == Some(ToString(today))
    ensures !IsOverdue(t, today)
  {
    ParseToString(today);
  }

  lemma DefaultTodoFields()
    ensures DefaultTodo.priority == NONE
    ensures DefaultTodo.tags == [] && DefaultTodo.subtasks == []
    ensures DefaultTodo.repeat.repeatType == NoRepeat
    ensures DefaultTodo.goalId.None? && DefaultTodo.date.None? && DefaultTodo.dueDate.None?
    ensures forall today :: !IsOverdue(DefaultTodo, today)
  {
  }

  // ---------------------------------------------------------------------
  // Goals

  datatype BigGoal = BigGoal(
    id: string,
    title: string,
    color: string,
    icon: string,
    createdAt: int,
    todos: seq<EnhancedTodo>)

  datatype DailyGoal = DailyGoal(
    id: string,
    date: string,
    title: string,
    isCompleted: bool,
    createdAt: int)

  /** `todos.count { it.isCompleted }`. */
  function CompletedCount(todos: seq<EnhancedTodo>): (n: nat)
    ensures n <= |todos|
    ensures n == |todos| <==> forall i :: 0 <= i < |todos| ==> todos[i].isCompleted
  {
    if |todos| == 0 then 0
    else (if todos[0].isCompleted then 1 else 0) + CompletedCount(todos[1..])
  }

  /** `BigGoal.progress`: the completed share of the goal's todos as a
      floored integer percentage, 0 for a goal without todos. */
  function Progress(g: BigGoal): (p: int)
    ensures 0 <= p <= 100
    ensures |g.todos| == 0 ==> p == 0
    ensures p == 100 <==> |g.todos| > 0 && forall i :: 0 <= i < |g.todos| ==> g.todos[i].isCompleted
    ensures |g.todos| > 0 ==> p * |g.todos| <= CompletedCount(g.todos) * 100 < (p + 1) * |g.todos|
  {
    if |g.todos| == 0 then 0
    else
      var c := CompletedCount(g.todos);
      PercentBounds(c, |g.todos|);
      (c * 100) / |g.todos|
  }

  /** Floor division of `c * 100` by `n` for `0 <= c <= n`. */
  lemma PercentBounds(c: int, n: int)
    requires 0 <= c <= n && n > 0
    ensures var p := (c * 100) / n;
      0 <= p <= 100 && (p == 100 <==> c == n) && p * n <= c * 100 < (p + 1) * n
  {
    var x := c * 100;
    var p := x / n;
    FloorDiv(x, n);
    MulLe(c, n, 100);
    ProductOrder(p, 100, n);
    ProductOrder(p + 1, 0, n);
    if c < n {
      MulLe(c + 1, n, 100);
      ProductOrder(100, p, n);
    } else {
      ProductOrder(p + 1, 100, n);
    }
  }

  /** Floor division brackets the dividend between consecutive multiples. */
  lemma FloorDiv(x: int, n: int)
    requires n > 0
    ensures (x / n) * n <= x < (x / n + 1) * n
  {
    var q, r := x / n, x % n;
    assert x == q * n + r;
    assert (q + 1) * n == q * n + n;
  }

  lemma MulLe(a: int, b: int, n: int)
    requires a <= b && n >= 0
    ensures a * n <= b * n
  {
    assert b * n - a * n == (b - a) * n;
  }

  /** With a positive factor, products compare as the other factors do. */
  lemma ProductOrder(a: int, b: int, n: int)
    requires n > 0
    ensures a * n <= b * n <==> a <= b
  {
    if a <= b {
      MulLe(a, b, n);
    } else {
      MulLe(b + 1, a, n);
    }
  }

  /** One of two todos completed is 50 percent. */
  lemma HalfDoneIsFifty(a: EnhancedTodo, b: EnhancedTodo)
    requires a.isCompleted && !b.isCompleted
    ensures Progress(BigGoal("goal", "Goal", "#3182F6", "", 0, [a, b])) == 50
  {
    assert CompletedCount([a, b]) == 1 by {
      assert [a, b][1..] == [b];
      assert [b][1..] == [];
    }
  }

  // ---------------------------------------------------------------------
  // Habits, calendar events, collaboration

  datatype HabitFrequency = HabitDaily | HabitWeekly | HabitMonthly | HabitCustom

  /** A habit; `completionHistory` maps a `yyyy-MM-dd` day to the number of
      completions logged on it. */
  datatype Habit = Habit(
    id: string,
    name: string,
    description: string,
    icon: string,
    color: string,
    frequency: HabitFrequency,
    targetCount: int,
    startDate: string,
    endDate: Option<string>,
    reminders: seq<string>,
    streakCount: int,
    longestStreak: int,
    completionHistory: map<string, int>,
    createdAt: int,
    order: int)

  /** Calendar events, comments and shared lists are only stored and
      listed; their remaining fields play no part in any rule. */
  datatype CalendarEvent = CalendarEvent(
    id: string,
    todoId: Option<string>,
    title: string,
    startTime: int,
    endTime: int,
    isAllDay: bool)

  datatype Comment = Comment(
    id: string,
    todoId: string,
    userId: string,
    text: string,
    timestamp: int)

  datatype SharedList = SharedList(
    id: string,
    listId: string,
    ownerId: string,
    sharedAt: int)

  // ---------------------------------------------------------------------
  // Smart lists

  datatype DateRangeType = TODAY | TOMORROW | THIS_WEEK | NEXT_WEEK | THIS_MONTH | OverdueRange | CustomRange

  datatype SortCriteria = DUE_DATE | PRIORITY | CREATED_DATE | TITLE | CUSTOM_ORDER

  datatype TodoStatus = ACTIVE | COMPLETED | OVERDUE

  /** A date window; `start` and `end` are only read for `CustomRange`. */
  datatype DateRange = DateRange(start: Option<string>, end: Option<string>, rangeType: DateRangeType)

  /** The criteria of a smart list. An empty list or a `None` switches a
      criterion off. */
  datatype ListFilter = ListFilter(
    priorities: seq<Priority>,
    tags: seq<string>,
    dateRange: Option<DateRange>,
    status: seq<TodoStatus>,
    goalIds: seq<string>,
    hasSubtasks: Option<bool>,
    hasDueDate: Option<bool>,
    isRecurring: Option<bool>)

  datatype SmartList = SmartList(
    id: string,
    name: string,
    icon: string,
    color: string,
    filters: ListFilter,
    sortBy: SortCriteria,
    isSystem: bool,
    order: int,
    createdAt: int)

  const DefaultFilter: ListFilter := ListFilter([], [], None, [], [], None, None, None)

  const DefaultDateRange: DateRange := DateRange(None, None, CustomRange)

  const DefaultSmartList: SmartList :=
    SmartList("", "", "📋", "#3182F6", DefaultFilter, DUE_DATE, false, 0, 0)

  // ---------------------------------------------------------------------
  // The user document

  /** One user's data. Pomodoro history, statistics and settings are not
      part of this model. */
  datatype EnhancedUserData = EnhancedUserData(
    userId: string,
    bigGoals: seq<BigGoal>,
    dailyGoals: seq<DailyGoal>,
    todos: seq<EnhancedTodo>,
    smartLists: seq<SmartList>,
    habits: seq<Habit>,
    calendarEvents: seq<CalendarEvent>,
    comments: seq<Comment>,
    sharedLists: seq<SharedList>,
    tags: seq<string>)

  const EmptyUserData: EnhancedUserData :=
    EnhancedUserData("default_user", [], [], [], [], [], [], [], [], [])

  // ---------------------------------------------------------------------
  // Ids: every stored entity is keyed by its `id` text

  function BigGoalId(g: BigGoal): string { g.id }
  function DailyGoalId(g: DailyGoal): string { g.id }
  function TodoId(t: EnhancedTodo): string { t.id }
  function SmartListId(l: SmartList): string { l.id }
  function HabitId(h: Habit): string { h.id }
  function EventId(e: CalendarEvent): string { e.id }
  function CommentId(c: Comment): string { c.id }
  function SharedListId(l: SharedList): string { l.id }
}
