/** The smart-list query engine: `applyFilter` narrows a todo list through
    up to eight criteria in a fixed order and then sorts it stably by one of
    five keys; `searchTodos` is a case-insensitive substring search; the
    system lists are a fixed catalogue of eight filters. The clock is the
    explicit parameter `today`. */
module FilterEngine {
  import opened Wrappers
  import opened Dates
  import opened Seqs
  import opened Text
  import opened Models

  // ---------------------------------------------------------------------
  // Date ranges

  /** The Sunday that closes today's ISO week: `today + (7 - dow)`. */
  function EndOfWeek(today: LocalDate): (r: LocalDate)
    ensures Weekday(r) == 7
    ensures EpochDay(today) <= EpochDay(r) <= EpochDay(today) + 6
    ensures r == today <==> Weekday(today) == 7
  {
    WeekdayWithinWeek(today, 7 - Weekday(today));
    EpochOrder(today, PlusDays(today, 7 - Weekday(today)));
    PlusDays(today, 7 - Weekday(today))
  }

  /** The Monday that opens next ISO week: `today + (8 - dow)`. */
  function StartOfNextWeek(today: LocalDate): (r: LocalDate)
    ensures Weekday(r) == 1
    ensures EpochDay(r) == EpochDay(EndOfWeek(today)) + 1
    ensures EpochDay(today) < EpochDay(r) <= EpochDay(today) + 7
  {
    WeekdayIntoNextWeek(today, 8 - Weekday(today));
    PlusDays(today, 8 - Weekday(today))
  }

  /** The due date is present, parses, and lies in `lo..hi`. */
  predicate DueWithin(t: EnhancedTodo, lo: LocalDate, hi: LocalDate) {
    t.dueDate.Some? &&
    match Parse(t.dueDate.value)
    case Some(d) => InRange(d, lo, hi)
    case None => false
  }

  /** `bound?.let { LocalDate.parse(it) }`: absent, present, or a failure. */
  function ParseBound(bound: Option<string>): (r: Result<Option<LocalDate>>)
    ensures r.Success? <==> bound.None? || Parse(bound.value).Some?
    ensures r.Success? && r.value.Some? ==> bound == Some(ToString(r.value.value))
  {
    match bound
    case None => Success(None)
    case Some(s) =>
      match Parse(s)
      case Some(d) => ToStringParse(s); Success(Some(d))
      case None => Failure("unparseable bound")
  }

  /** The CUSTOM test: a failure to parse the due date or a bound excludes
      the todo; otherwise each bound that is present closes its side. */
  predicate InCustomRange(range: DateRange, t: EnhancedTodo) {
    if t.dueDate.None? then false
    else
      var date := Parse(t.dueDate.value);
      var start := ParseBound(range.start);
      var end := ParseBound(range.end);
      if date.None? || start.Failure? || end.Failure? then false
      else
        var d := date.value;
        match (start.value, end.value)
        case (Some(s), Some(e)) => InRange(d, s, e)
        case (Some(s), None) => OnOrBefore(s, d)
        case (None, Some(e)) => OnOrBefore(d, e)
        case (None, None) => true
  }

  /** The date-range criterion for one todo. */
  predicate InDateRange(range: DateRange, t: EnhancedTodo, today: LocalDate) {
    match range.rangeType
    case TODAY => t.dueDate == Some(ToString(today)) || t.date == Some(ToString(today))
    case TOMORROW => t.dueDate == Some(ToString(PlusDays(today, 1)))
    case THIS_WEEK => DueWithin(t, today, EndOfWeek(today))
    case NEXT_WEEK => DueWithin(t, StartOfNextWeek(today), PlusDays(StartOfNextWeek(today), 6))
    case THIS_MONTH => DueWithin(t, FirstOfMonth(today), LastOfMonth(today))
    case OverdueRange => IsOverdue(t, today)
    case CustomRange => InCustomRange(range, t)
  }

  // ---------------------------------------------------------------------
  // Status

  predicate HasStatus(t: EnhancedTodo, s: TodoStatus, today: LocalDate) {
    match s
    case COMPLETED => t.isCompleted
    case OVERDUE => IsOverdue(t, today) && !t.isCompleted
    case ACTIVE => !t.isCompleted && !IsOverdue(t, today)
  }

  /** Every todo has exactly one of the three statuses, and OVERDUE is
      just `isOverdue`. */
  lemma StatusPartition(t: EnhancedTodo, today: LocalDate)
    ensures HasStatus(t, ACTIVE, today) || HasStatus(t, COMPLETED, today) || HasStatus(t, OVERDUE, today)
    ensures !(HasStatus(t, ACTIVE, today) && HasStatus(t, COMPLETED, today))
    ensures !(HasStatus(t, ACTIVE, today) && HasStatus(t, OVERDUE, today))
    ensures !(HasStatus(t, COMPLETED, today) && HasStatus(t, OVERDUE, today))
    ensures HasStatus(t, OVERDUE, today) <==> IsOverdue(t, today)
  {
  }

  // ---------------------------------------------------------------------
  // The eight criteria

  /** The criteria in the order applyFilter applies them. */
  datatype Criterion =
    ByPriority | ByTags | ByDateRange | ByStatus | ByGoal | BySubtasks | ByDueDate | ByRecurring

  const Criteria: seq<Criterion> :=
    [ByPriority, ByTags, ByDateRange, ByStatus, ByGoal, BySubtasks, ByDueDate, ByRecurring]

  /** A criterion is switched on by a non-empty list or a non-null value. */
  predicate Active(f: ListFilter, c: Criterion) {
    match c
    case ByPriority => |f.priorities| > 0
    case ByTags => |f.tags| > 0
    case ByDateRange => f.dateRange.Some?
    case ByStatus => |f.status| > 0
    case ByGoal => |f.goalIds| > 0
    case BySubtasks => f.hasSubtasks.Some?
    case ByDueDate => f.hasDueDate.Some?
    case ByRecurring => f.isRecurring.Some?
  }

  /** The test a switched-on criterion applies to one todo. */
  predicate Holds(f: ListFilter, c: Criterion, t: EnhancedTodo, today: LocalDate) {
    match c
    case ByPriority => t.priority in f.priorities
    case ByTags => exists tag :: tag in f.tags && tag in t.tags
    case ByDateRange => f.dateRange.Some? && InDateRange(f.dateRange.value, t, today)
    case ByStatus => exists s :: s in f.status && HasStatus(t, s, today)
    case ByGoal => t.goalId.Some? && t.goalId.value in f.goalIds
    case BySubtasks => f.hasSubtasks.Some? && (|t.subtasks| > 0) == f.hasSubtasks.value
    case ByDueDate => f.hasDueDate.Some? && t.dueDate.Some? == f.hasDueDate.value
    case ByRecurring => f.isRecurring.Some? && (t.repeat.repeatType != NoRepeat) == f.isRecurring.value
  }

  /** One step of the pipeline: filter when the criterion is on. */
  function Step(todos: seq<EnhancedTodo>, f: ListFilter, c: Criterion, today: LocalDate): seq<EnhancedTodo> {
    if Active(f, c) then Filter(todos, t => Holds(f, c, t, today)) else todos
  }

  /** The steps for `cs`, applied in sequence. */
  function Narrow(todos: seq<EnhancedTodo>, f: ListFilter, cs: seq<Criterion>, today: LocalDate): seq<EnhancedTodo>
    decreases |cs|
  {
    if |cs| == 0 then todos else Narrow(Step(todos, f, cs[0], today), f, cs[1..], today)
  }

  /** Independent reading of the whole filter: every criterion that is on
      holds. */
  predicate Matches(f: ListFilter, t: EnhancedTodo, today: LocalDate) {
    && (|f.priorities| > 0 ==> t.priority in f.priorities)
    && (|f.tags| > 0 ==> exists i :: 0 <= i < |f.tags| && f.tags[i] in t.tags)
    && (f.dateRange.Some? ==> InDateRange(f.dateRange.value, t, today))
    && (|f.status| > 0 ==> exists i :: 0 <= i < |f.status| && HasStatus(t, f.status[i], today))
    && (|f.goalIds| > 0 ==> t.goalId.Some? && t.goalId.value in f.goalIds)
    && (f.hasSubtasks.Some? ==> (|t.subtasks| > 0) == f.hasSubtasks.value)
    && (f.hasDueDate.Some? ==> t.dueDate.Some? == f.hasDueDate.value)
    && (f.isRecurring.Some? ==> (t.repeat.repeatType != NoRepeat) == f.isRecurring.value)
  }

  /** `t` passes every criterion of `cs` that is on. */
  function PassesAll(f: ListFilter, cs: seq<Criterion>, today: LocalDate): EnhancedTodo -> bool {
    t => forall i :: 0 <= i < |cs| ==> !Active(f, cs[i]) || Holds(f, cs[i], t, today)
  }

  /** Applying the steps one after another is one filter by all of them. */
  lemma {:induction false} NarrowIsFilter(todos: seq<EnhancedTodo>, f: ListFilter, cs: seq<Criterion>, today: LocalDate)
    ensures Narrow(todos, f, cs, today) == Filter(todos, PassesAll(f, cs, today))
    decreases |cs|
  {
    if |cs| == 0 {
      FilterAll(todos, PassesAll(f, cs, today));
    } else {
      var c := cs[0];
      var p := (t: EnhancedTodo) => !Active(f, c) || Holds(f, c, t, today);
      NarrowIsFilter(Step(todos, f, c, today), f, cs[1..], today);
      if Active(f, c) {
        FilterExt(todos, t => Holds(f, c, t, today), p);
      } else {
        FilterAll(todos, p);
      }
      assert Step(todos, f, c, today) == Filter(todos, p);
      forall t | true
        ensures PassesAll(f, cs, today)(t) == (p(t) && PassesAll(f, cs[1..], today)(t))
      {
        if p(t) && PassesAll(f, cs[1..], today)(t) {
          forall i | 0 <= i < |cs|
            ensures !Active(f, cs[i]) || Holds(f, cs[i], t, today)
          {
            if i > 0 {
              assert cs[i] == cs[1..][i - 1];
            }
          }
        }
        if PassesAll(f, cs, today)(t) {
          assert p(t) by { assert cs[0] == c; }
          forall i | 0 <= i < |cs[1..]|
            ensures !Active(f, cs[1..][i]) || Holds(f, cs[1..][i], t, today)
          {
            assert cs[1..][i] == cs[i + 1];
          }
        }
      }
      FilterFilter(todos, p, PassesAll(f, cs[1..], today), PassesAll(f, cs, today));
    }
  }

  /** Passing all eight criteria is `Matches`. */
  lemma PassesAllIsMatches(f: ListFilter, t: EnhancedTodo, today: LocalDate)
    ensures PassesAll(f, Criteria, today)(t) <==> Matches(f, t, today)
  {
    PassesAllUnrolled(f, t, today);
    if |f.tags| > 0 {
      assert (exists tag :: tag in f.tags && tag in t.tags)
        <==> (exists i :: 0 <= i < |f.tags| && f.tags[i] in t.tags);
    }
    if |f.status| > 0 {
      assert (exists s :: s in f.status && HasStatus(t, s, today))
        <==> (exists i :: 0 <= i < |f.status| && HasStatus(t, f.status[i], today));
    }
  }

  /** The eight criteria, one by one. */
  predicate EachHolds(f: ListFilter, t: EnhancedTodo, today: LocalDate) {
    && (!Active(f, ByPriority) || Holds(f, ByPriority, t, today))
    && (!Active(f, ByTags) || Holds(f, ByTags, t, today))
    && (!Active(f, ByDateRange) || Holds(f, ByDateRange, t, today))
    && (!Active(f, ByStatus) || Holds(f, ByStatus, t, today))
    && (!Active(f, ByGoal) || Holds(f, ByGoal, t, today))
    && (!Active(f, BySubtasks) || Holds(f, BySubtasks, t, today))
    && (!Active(f, ByDueDate) || Holds(f, ByDueDate, t, today))
    && (!Active(f, ByRecurring) || Holds(f, ByRecurring, t, today))
  }

  lemma PassesAllUnrolled(f: ListFilter, t: EnhancedTodo, today: LocalDate)
    ensures PassesAll(f, Criteria, today)(t) <==> EachHolds(f, t, today)
  {
    var cs := Criteria;
    assert cs[0] == ByPriority && cs[1] == ByTags && cs[2] == ByDateRange && cs[3] == ByStatus;
    assert cs[4] == ByGoal && cs[5] == BySubtasks && cs[6] == ByDueDate && cs[7] == ByRecurring;
  }

  /** The eight steps in their fixed order are one filter by `Matches`. */
  lemma NarrowMatches(todos: seq<EnhancedTodo>, f: ListFilter, today: LocalDate)
    ensures Narrow(todos, f, Criteria, today) == Filter(todos, t => Matches(f, t, today))
  {
    NarrowIsFilter(todos, f, Criteria, today);
    forall i | 0 <= i < |todos|
      ensures PassesAll(f, Criteria, today)(todos[i]) == Matches(f, todos[i], today)
    {
      PassesAllIsMatches(f, todos[i], today);
    }
    FilterExt(todos, PassesAll(f, Criteria, today), t => Matches(f, t, today));
  }

  // ---------------------------------------------------------------------
  // Sorting

  /** The key each sort criterion compares: the due date with null last,
      the priority ordinal descending, the creation time, the lowercased
      title, or the manual order. */
  function SortKeyOf(sortBy: SortCriteria, t: EnhancedTodo): SortKey {
    match sortBy
    case DUE_DATE => if t.dueDate.Some? then SortKey(0, t.dueDate.value) else SortKey(1, "")
    case PRIORITY => SortKey(-Ordinal(t.priority), "")
    case CREATED_DATE => SortKey(t.createdAt, "")
    case TITLE => SortKey(0, Lower(t.title))
    case CUSTOM_ORDER => SortKey(t.order, "")
  }

  /** Reference order of each criterion, stated on the todos themselves:
      may `a` come before `b`? */
  predicate InOrder(sortBy: SortCriteria, a: EnhancedTodo, b: EnhancedTodo) {
    match sortBy
    case DUE_DATE => b.dueDate.None? || (a.dueDate.Some? && TextLe(a.dueDate.value, b.dueDate.value))
    case PRIORITY => Ordinal(a.priority) >= Ordinal(b.priority)
    case CREATED_DATE => a.createdAt <= b.createdAt
    case TITLE => TextLe(Lower(a.title), Lower(b.title))
    case CUSTOM_ORDER => a.order <= b.order
  }

  lemma KeyOrderIsInOrder(sortBy: SortCriteria, a: EnhancedTodo, b: EnhancedTodo)
    ensures KeyLe(SortKeyOf(sortBy, a), SortKeyOf(sortBy, b)) <==> InOrder(sortBy, a, b)
  {
    TextLeRefl("");
  }

  /** `applyFilter`: the todos that match `f`, sorted stably by `sortBy`. */
  function ApplyFilter(todos: seq<EnhancedTodo>, f: ListFilter, sortBy: SortCriteria, today: LocalDate): (r: seq<EnhancedTodo>)
    ensures |r| <= |todos|
    ensures multiset(r) <= multiset(todos)
    ensures forall i :: 0 <= i < |r| ==> Matches(f, r[i], today)
    ensures forall i, j :: 0 <= i < j < |r| ==> InOrder(sortBy, r[i], r[j])
  {
    var narrowed := Narrow(todos, f, Criteria, today);
    var key := (t: EnhancedTodo) => SortKeyOf(sortBy, t);
    NarrowMatches(todos, f, today);
    FilterSubMultiset(todos, t => Matches(f, t, today));
    var r := SortBy(narrowed, key);
    assert forall i :: 0 <= i < |r| ==> Matches(f, r[i], today) by {
      forall i | 0 <= i < |r|
        ensures Matches(f, r[i], today)
      {
        assert r[i] in multiset(narrowed);
      }
    }
    SortBySorted(narrowed, key);
    forall i, j | 0 <= i < j < |r|
      ensures InOrder(sortBy, r[i], r[j])
    {
      KeyOrderIsInOrder(sortBy, r[i], r[j]);
    }
    r
  }

  /** Each todo appears in the result as often as in the input when it
      matches, and not at all otherwise. */
  lemma ApplyFilterCount(todos: seq<EnhancedTodo>, f: ListFilter, sortBy: SortCriteria, today: LocalDate, x: EnhancedTodo)
    ensures multiset(ApplyFilter(todos, f, sortBy, today))[x]
         == if Matches(f, x, today) then multiset(todos)[x] else 0
  {
    NarrowMatches(todos, f, today);
    FilterCount(todos, t => Matches(f, t, today), x);
  }

  /** A todo is in the result exactly when it is in the input and matches. */
  lemma ApplyFilterMembers(todos: seq<EnhancedTodo>, f: ListFilter, sortBy: SortCriteria, today: LocalDate)
    ensures forall x :: x in ApplyFilter(todos, f, sortBy, today) <==> x in todos && Matches(f, x, today)
  {
    forall x
      ensures x in ApplyFilter(todos, f, sortBy, today) <==> x in todos && Matches(f, x, today)
    {
      ApplyFilterCount(todos, f, sortBy, today, x);
    }
  }

  /** Todos with the same sort key keep their input order. */
  lemma ApplyFilterStable(todos: seq<EnhancedTodo>, f: ListFilter, sortBy: SortCriteria, today: LocalDate, k: SortKey)
    ensures WithKey(ApplyFilter(todos, f, sortBy, today), t => SortKeyOf(sortBy, t), k)
         == WithKey(Filter(todos, t => Matches(f, t, today)), t => SortKeyOf(sortBy, t), k)
  {
    NarrowMatches(todos, f, today);
    SortByStable(Narrow(todos, f, Criteria, today), t => SortKeyOf(sortBy, t), k);
  }

  /** With every criterion off the result is a reordering of the input. */
  lemma InactiveFilterIsPermutation(todos: seq<EnhancedTodo>, f: ListFilter, sortBy: SortCriteria, today: LocalDate)
    requires forall c :: !Active(f, c)
    ensures multiset(ApplyFilter(todos, f, sortBy, today)) == multiset(todos)
  {
    forall x
      ensures multiset(ApplyFilter(todos, f, sortBy, today))[x] == multiset(todos)[x]
    {
      ApplyFilterCount(todos, f, sortBy, today, x);
    }
  }

  /** The default `ListFilter()` switches every criterion off. */
  lemma DefaultFilterIsIdentity(todos: seq<EnhancedTodo>, sortBy: SortCriteria, today: LocalDate)
    ensures forall c :: !Active(DefaultFilter, c)
    ensures multiset(ApplyFilter(todos, DefaultFilter, sortBy, today)) == multiset(todos)
    ensures |ApplyFilter(todos, DefaultFilter, sortBy, today)| == |todos|
  {
    InactiveFilterIsPermutation(todos, DefaultFilter, sortBy, today);
    assert |multiset(ApplyFilter(todos, DefaultFilter, sortBy, today))| == |multiset(todos)|;
  }

  /** A filter holding only the default `DateRange()` keeps exactly the
      todos whose due date parses. */
  lemma DefaultDateRangeKeepsParseable(todos: seq<EnhancedTodo>, sortBy: SortCriteria, today: LocalDate)
    ensures forall x :: x in ApplyFilter(todos, DefaultFilter.(dateRange := Some(DefaultDateRange)), sortBy, today)
                   <==> x in todos && x.dueDate.Some? && Parse(x.dueDate.value).Some?
  {
    var f := DefaultFilter.(dateRange := Some(DefaultDateRange));
    ApplyFilterMembers(todos, f, sortBy, today);
    forall x
      ensures Matches(f, x, today) <==> x.dueDate.Some? && Parse(x.dueDate.value).Some?
    {
      DefaultDateRangeMatches(x, today);
    }
  }

  /** The default `DateRange()` holds for a todo exactly when its due date
      parses. */
  lemma DefaultDateRangeMatches(x: EnhancedTodo, today: LocalDate)
    ensures Matches(DefaultFilter.(dateRange := Some(DefaultDateRange)), x, today)
        <==> x.dueDate.Some? && Parse(x.dueDate.value).Some?
  {
    assert InDateRange(DefaultDateRange, x, today) == InCustomRange(DefaultDateRange, x);
  }

  // ---------------------------------------------------------------------
  // What each criterion means

  /** Priority, tag, goal and tri-state criteria as set membership and
      equality with the todo's actual value. */
  lemma SimpleCriteria(f: ListFilter, t: EnhancedTodo, today: LocalDate)
    requires Matches(f, t, today)
    ensures |f.priorities| > 0 ==> t.priority in f.priorities
    ensures |f.tags| > 0 ==> exists tag :: tag in f.tags && tag in t.tags
    ensures |f.goalIds| > 0 ==> t.goalId.Some? && t.goalId.value in f.goalIds
    ensures f.hasSubtasks == Some(true) ==> |t.subtasks| > 0
    ensures f.hasSubtasks == Some(false) ==> |t.subtasks| == 0
    ensures f.hasDueDate.Some? ==> (t.dueDate.Some? <==> f.hasDueDate.value)
    ensures f.isRecurring.Some? ==> (t.repeat.repeatType != NoRepeat <==> f.isRecurring.value)
  {
    if |f.tags| > 0 {
      var i :| 0 <= i < |f.tags| && f.tags[i] in t.tags;
      assert f.tags[i] in f.tags;
    }
  }

  /** The status criterion keeps a todo exactly when one of the listed
      statuses holds for it. */
  lemma StatusCriterion(statuses: seq<TodoStatus>, t: EnhancedTodo, today: LocalDate)
    ensures (exists i :: 0 <= i < |statuses| && HasStatus(t, statuses[i], today))
        <==> ((COMPLETED in statuses && t.isCompleted)
             || (OVERDUE in statuses && IsOverdue(t, today))
             || (ACTIVE in statuses && !t.isCompleted && !IsOverdue(t, today)))
  {
    if COMPLETED in statuses && t.isCompleted {
      var i :| 0 <= i < |statuses| && statuses[i] == COMPLETED;
      assert HasStatus(t, statuses[i], today);
    }
    if OVERDUE in statuses && IsOverdue(t, today) {
      var i :| 0 <= i < |statuses| && statuses[i] == OVERDUE;
      assert HasStatus(t, statuses[i], today);
    }
    if ACTIVE in statuses && !t.isCompleted && !IsOverdue(t, today) {
      var i :| 0 <= i < |statuses| && statuses[i] == ACTIVE;
      assert HasStatus(t, statuses[i], today);
    }
  }

  /** The CUSTOM range in terms of epoch days: the due date parses, every
      bound that is present parses, and the due date is on the closed side
      of each of them. */
  lemma CustomRangeSemantics(range: DateRange, t: EnhancedTodo)
    ensures InCustomRange(range, t) <==>
      && t.dueDate.Some? && Parse(t.dueDate.value).Some?
      && (range.start.Some? ==>
            Parse(range.start.value).Some?
            && EpochDay(Parse(range.start.value).value) <= EpochDay(Parse(t.dueDate.value).value))
      && (range.end.Some? ==>
            Parse(range.end.value).Some?
            && EpochDay(Parse(t.dueDate.value).value) <= EpochDay(Parse(range.end.value).value))
  {
    if t.dueDate.Some? && Parse(t.dueDate.value).Some? {
      var d := Parse(t.dueDate.value).value;
      if range.start.Some? && Parse(range.start.value).Some? {
        EpochOrder(Parse(range.start.value).value, d);
      }
      if range.end.Some? && Parse(range.end.value).Some? {
        EpochOrder(d, Parse(range.end.value).value);
      }
    }
  }

  /** TODAY and TOMORROW in terms of parsed dates (for four-digit years,
      where text equality with the printed date is parsing to it). */
  lemma TodayTomorrowSemantics(range: DateRange, t: EnhancedTodo, today: LocalDate)
    requires 0 <= today.year && PlusDays(today, 1).year <= 9999
    ensures range.rangeType == TODAY ==>
      (InDateRange(range, t, today) <==>
        (t.dueDate.Some? && Parse(t.dueDate.value) == Some(today))
        || (t.date.Some? && Parse(t.date.value) == Some(today)))
    ensures range.rangeType == TOMORROW ==>
      (InDateRange(range, t, today) <==>
        t.dueDate.Some? && Parse(t.dueDate.value).Some?
        && EpochDay(Parse(t.dueDate.value).value) == EpochDay(today) + 1)
  {
    EpochOrder(today, PlusDays(today, 1));
    assert today.year <= 9999;
    var tomorrow := PlusDays(today, 1);
    if t.dueDate.Some? {
      TextIsDate(t.dueDate.value, today);
      TextIsDate(t.dueDate.value, tomorrow);
      if Parse(t.dueDate.value).Some? {
        EpochOrder(Parse(t.dueDate.value).value, tomorrow);
      }
    }
    if t.date.Some? {
      TextIsDate(t.date.value, today);
    }
  }

  /** THIS_WEEK runs from today to the coming Sunday (today alone when it
      is Sunday), NEXT_WEEK from the next Monday to the Sunday after it,
      THIS_MONTH over today's calendar month. */
  lemma RelativeRangeSemantics(range: DateRange, t: EnhancedTodo, today: LocalDate)
    requires t.dueDate.Some? && Parse(t.dueDate.value).Some?
    ensures var d := EpochDay(Parse(t.dueDate.value).value); var e := EpochDay(today);
      && (range.rangeType == THIS_WEEK ==>
            (InDateRange(range, t, today) <==> e <= d <= e + 7 - Weekday(today)))
      && (range.rangeType == NEXT_WEEK ==>
            (InDateRange(range, t, today) <==> e + 8 - Weekday(today) <= d <= e + 14 - Weekday(today)))
      && (range.rangeType == THIS_MONTH ==>
            (InDateRange(range, t, today) <==>
              Parse(t.dueDate.value).value.year == today.year
              && Parse(t.dueDate.value).value.month == today.month))
  {
    var due := Parse(t.dueDate.value).value;
    ThisWeekEpoch(due, today);
    NextWeekEpoch(due, today);
    ThisMonthFields(due, today);
  }

  lemma ThisWeekEpoch(due: LocalDate, today: LocalDate)
    ensures InRange(due, today, EndOfWeek(today))
        <==> EpochDay(today) <= EpochDay(due) <= EpochDay(today) + 7 - Weekday(today)
  {
    InRangeEpoch(due, today, EndOfWeek(today));
  }

  lemma NextWeekEpoch(due: LocalDate, today: LocalDate)
    ensures var start := StartOfNextWeek(today);
      InRange(due, start, PlusDays(start, 6)) <==>
        EpochDay(today) + 8 - Weekday(today) <= EpochDay(due) <= EpochDay(today) + 14 - Weekday(today)
  {
    var start := StartOfNextWeek(today);
    InRangeEpoch(due, start, PlusDays(start, 6));
  }

  lemma ThisMonthFields(due: LocalDate, today: LocalDate)
    ensures InRange(due, FirstOfMonth(today), LastOfMonth(today))
        <==> due.year == today.year && due.month == today.month
  {
    EpochOrder(FirstOfMonth(today), due);
    EpochOrder(due, LastOfMonth(today));
  }

  /** The NEXT_WEEK window is the seven days Monday..Sunday right after
      the THIS_WEEK window. */
  lemma NextWeekWindow(today: LocalDate)
    ensures var start := StartOfNextWeek(today); var end := PlusDays(start, 6);
      Weekday(start) == 1 && Weekday(end) == 7
      && EpochDay(end) - EpochDay(start) == 6
      && EpochDay(start) == EpochDay(EndOfWeek(today)) + 1
  {
    WeekdayWithinWeek(StartOfNextWeek(today), 6);
  }

  // ---------------------------------------------------------------------
  // System lists, search, count

  function SystemList(id: string, name: string, icon: string, filters: ListFilter, sortBy: SortCriteria, order: int): SmartList {
    DefaultSmartList.(id := id, name := name, icon := icon, filters := filters, sortBy := sortBy, isSystem := true, order := order)
  }

  function RangeFilter(rangeType: DateRangeType): ListFilter {
    DefaultFilter.(dateRange := Some(DefaultDateRange.(rangeType := rangeType)))
  }

  /** `createSystemLists`: the eight built-in lists. */
  function CreateSystemLists(): (r: seq<SmartList>)
    ensures |r| == 8
    ensures forall i :: 0 <= i < |r| ==> r[i].isSystem && r[i].order == i
    ensures forall i, j :: 0 <= i < j < |r| ==> r[i].id != r[j].id
  {
    [ SystemList("system_inbox", "받은편지함", "📥", DefaultFilter, CREATED_DATE, 0),
      SystemList("system_today", "오늘", "📅", RangeFilter(TODAY), DUE_DATE, 1),
      SystemList("system_tomorrow", "내일", "➡️", RangeFilter(TOMORROW), DUE_DATE, 2),
      SystemList("system_week", "이번 주", "📆", RangeFilter(THIS_WEEK), DUE_DATE, 3),
      SystemList("system_overdue", "기한 지남", "⚠️", RangeFilter(OverdueRange).(status := [OVERDUE]), DUE_DATE, 4),
      SystemList("system_high_priority", "중요", "🔴", DefaultFilter.(priorities := [HIGH]), DUE_DATE, 5),
      SystemList("system_completed", "완료됨", "✅", DefaultFilter.(status := [COMPLETED]), DUE_DATE, 6),
      SystemList("system_all", "모든 할 일", "📋", DefaultFilter, DUE_DATE, 7) ]
  }

  /** What the built-in filters accept: the inbox and "all" filters
      everything, the overdue filter the overdue todos, the priority filter
      the HIGH ones, the completed filter the completed ones. */
  lemma SystemFiltersAccept(x: EnhancedTodo, today: LocalDate)
    ensures var ls := CreateSystemLists();
      && Matches(ls[0].filters, x, today)
      && Matches(ls[7].filters, x, today)
      && (Matches(ls[4].filters, x, today) <==> IsOverdue(x, today))
      && (Matches(ls[5].filters, x, today) <==> x.priority == HIGH)
      && (Matches(ls[6].filters, x, today) <==> x.isCompleted)
  {
    assert [OVERDUE][0] == OVERDUE && [COMPLETED][0] == COMPLETED;
  }

  /** A built-in list selects exactly the input todos its filter accepts. */
  lemma SystemListsSelect(todos: seq<EnhancedTodo>, today: LocalDate, k: int, x: EnhancedTodo)
    requires 0 <= k < 8
    ensures var l := CreateSystemLists()[k];
      x in ApplyFilter(todos, l.filters, l.sortBy, today) <==> x in todos && Matches(l.filters, x, today)
  {
    var l := CreateSystemLists()[k];
    ApplyFilterMembers(todos, l.filters, l.sortBy, today);
  }

  /** The search test: a lowercased field, or a lowercased tag, contains
      the lowercased query. */
  predicate MatchesQuery(t: EnhancedTodo, lowerQuery: string) {
    Contains(Lower(t.title), lowerQuery)
    || Contains(Lower(t.description), lowerQuery)
    || Contains(Lower(t.note), lowerQuery)
    || exists tag :: tag in t.tags && Contains(Lower(tag), lowerQuery)
  }

  /** `searchTodos`: a blank query returns the list as it is; otherwise the
      todos matching the query, in their order. */
  function SearchTodos(todos: seq<EnhancedTodo>, query: string): (r: seq<EnhancedTodo>)
    ensures IsBlank(query) ==> r == todos
    ensures IsSubsequence(r, todos)
    ensures !IsBlank(query) ==> forall x :: x in r <==> x in todos && MatchesQuery(x, Lower(query))
    ensures !IsBlank(query) ==>
      forall x :: multiset(r)[x] == if MatchesQuery(x, Lower(query)) then multiset(todos)[x] else 0
  {
    if IsBlank(query) then
      SubsequenceRefl(todos);
      todos
    else
      var lowerQuery := Lower(query);
      var r := Filter(todos, t => MatchesQuery(t, lowerQuery));
      FilterMembers(todos, t => MatchesQuery(t, lowerQuery));
      FilterIsSubsequence(todos, t => MatchesQuery(t, lowerQuery));
      FilterCounts(todos, t => MatchesQuery(t, lowerQuery));
      r
  }

  /** `getTodoCount`: how many todos the list selects, counting copies. */
  function GetTodoCount(todos: seq<EnhancedTodo>, list: SmartList, today: LocalDate): (n: nat)
    ensures n <= |todos|
    ensures n == |Filter(todos, t => Matches(list.filters, t, today))|
    ensures (forall c :: !Active(list.filters, c)) ==> n == |todos|
  {
    NarrowMatches(todos, list.filters, today);
    var r := ApplyFilter(todos, list.filters, list.sortBy, today);
    assert (forall c :: !Active(list.filters, c)) ==> |r| == |todos| by {
      if forall c :: !Active(list.filters, c) {
        InactiveFilterIsPermutation(todos, list.filters, list.sortBy, today);
        assert |multiset(r)| == |multiset(todos)|;
      }
    }
    |r|
  }

  // ---------------------------------------------------------------------
  // Worked examples

  /** An unfinished todo due 2020-01-01 is overdue on 2025-01-01; finished,
      it is not. */
  lemma OverdueExample(t: EnhancedTodo)
    requires !t.isCompleted && t.dueDate == Some("2020-01-01")
    ensures IsOverdue(t, Date(2025, 1, 1))
    ensures !IsOverdue(t.(isCompleted := true), Date(2025, 1, 1))
  {
    ParseToString(Date(2020, 1, 1));
    FirstOf2020Text();
  }

  lemma FirstOf2020Text()
    ensures ToString(Date(2020, 1, 1)) == "2020-01-01"
  {
    YearText2020();
    PaddedOne();
    assert "2020" + ['-'] + "01" + ['-'] + "01" == "2020-01-01";
  }

  lemma YearText2020()
    ensures YearText(2020) == "2020"
  {
    assert Fixed(2, 1) == "2";
    assert Fixed(20, 2) == "20";
    assert Fixed(202, 3) == "202";
  }

  lemma PaddedOne()
    ensures Fixed(1, 2) == "01"
  {
    assert Fixed(0, 1) == "0";
  }

  /** Sorting by due date puts a todo without one after a todo with one. */
  lemma DueDateNullsLastExample(a: EnhancedTodo, b: EnhancedTodo, today: LocalDate)
    requires a.dueDate.None? && b.dueDate == Some("2024-01-01")
    ensures ApplyFilter([a, b], DefaultFilter, DUE_DATE, today) == [b, a]
  {
    assert !InOrder(DUE_DATE, a, b);
    OutOfOrderPairSwapped(a, b, DUE_DATE, today);
  }

  /** Two todos in the wrong order for the sort come out swapped when no
      criterion is on. */
  lemma OutOfOrderPairSwapped(a: EnhancedTodo, b: EnhancedTodo, sortBy: SortCriteria, today: LocalDate)
    requires !InOrder(sortBy, a, b)
    ensures ApplyFilter([a, b], DefaultFilter, sortBy, today) == [b, a]
  {
    DefaultFilterIsIdentity([a, b], sortBy, today);
    var r := ApplyFilter([a, b], DefaultFilter, sortBy, today);
    PairByMultiset(r, a, b);
    assert InOrder(sortBy, r[0], r[1]);
  }

  /** A HIGH todo and a LOW todo through a HIGH-only filter leave the HIGH
      one alone. */
  lemma PriorityExample(t1: EnhancedTodo, t2: EnhancedTodo, today: LocalDate)
    requires t1.priority == HIGH && t2.priority == LOW
    ensures ApplyFilter([t1, t2], DefaultFilter.(priorities := [HIGH]), PRIORITY, today) == [t1]
  {
    var f := DefaultFilter.(priorities := [HIGH]);
    assert Matches(f, t1, today) && !Matches(f, t2, today);
    OnlyFirstKept(t1, t2, f, PRIORITY, today);
  }

  /** Of two todos, a filter that only the first matches keeps just it. */
  lemma OnlyFirstKept(a: EnhancedTodo, b: EnhancedTodo, f: ListFilter, sortBy: SortCriteria, today: LocalDate)
    requires Matches(f, a, today) && !Matches(f, b, today)
    ensures ApplyFilter([a, b], f, sortBy, today) == [a]
  {
    var r := ApplyFilter([a, b], f, sortBy, today);
    ApplyFilterCount([a, b], f, sortBy, today, a);
    assert multiset([a, b])[a] == 1;
    forall x | x != a
      ensures multiset(r)[x] == 0
    {
      ApplyFilterCount([a, b], f, sortBy, today, x);
    }
    SingletonByCount(r, a);
  }

  /** "MILK" finds "Buy milk" through its lowercased title. */
  lemma SearchExample(t: EnhancedTodo)
    requires t.title == "Buy milk"
    ensures t in SearchTodos([t], "MILK")
  {
    assert Lower("MILK") == "milk";
    assert Lower("Buy milk") == "buy milk";
    assert OccursAt(Lower(t.title), "milk", 4);
    assert !IsWhitespace("MILK"[0]);
  }
}
