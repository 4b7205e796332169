/** `HomeViewModel`: today's daily goal and today's todos as the home
    screen shows them, and the state changes its buttons make. Today's
    date (as `yyyy-MM-dd` text) and the current time are parameters. */
module Home {
  import opened Wrappers
  import opened Seqs
  import opened ById
  import opened Models
  import Repository

  datatype HomeUiState = HomeUiState(
    currentDate: string,
    dailyGoal: Option<DailyGoal>,
    todos: seq<EnhancedTodo>,
    isLoading: bool,
    error: Option<string>)

  function CreatedKey(t: EnhancedTodo): SortKey { SortKey(t.createdAt, "") }

  /** A todo belongs on today's list when it has an id and is planned for
      today or not planned at all. */
  predicate ForToday(t: EnhancedTodo, today: string) {
    t.id != "" && (t.date == Some(today) || t.date.None?)
  }

  /** Today's todos: those `ForToday`, the first of each id, ordered by
      creation time (ties keep the stored order). */
  function TodayTodos(todos: seq<EnhancedTodo>, today: string): (r: seq<EnhancedTodo>)
    ensures SortedBy(r, CreatedKey)
    ensures KeysUnique(r, TodoId)
    ensures forall t :: t in r ==> t in todos && ForToday(t, today)
    ensures forall t :: t in r ==> IsFirstOfKey(Filter(todos, (x: EnhancedTodo) => ForToday(x, today)), TodoId, t)
    ensures forall t :: t in todos && ForToday(t, today) ==> exists x :: x in r && x.id == t.id
    ensures forall k :: WithKey(r, CreatedKey, k)
                        == WithKey(DistinctBy(Filter(todos, (x: EnhancedTodo) => ForToday(x, today)), TodoId), CreatedKey, k)
  {
    var mine := Filter(todos, (x: EnhancedTodo) => ForToday(x, today));
    var unique := DistinctBy(mine, TodoId);
    var r := SortBy(unique, CreatedKey);
    SortBySorted(unique, CreatedKey);
    forall k {
      SortByStable(unique, CreatedKey, k);
    }
    PermutationKeysUnique(unique, r, TodoId);
    FilterMembers(todos, (x: EnhancedTodo) => ForToday(x, today));
    SubsequenceMembers(unique, mine);
    DistinctByKeys(mine, TodoId);
    assert forall t :: t in r <==> t in unique by {
      assert forall t :: t in r <==> t in multiset(unique);
    }
    forall t | t in todos && ForToday(t, today)
      ensures exists x :: x in r && x.id == t.id
    {
      var ids := Map(unique, TodoId);
      assert t.id in ids;
      var k :| 0 <= k < |ids| && ids[k] == t.id;
      assert unique[k] in r;
    }
    r
  }

  /** Today's daily goal: among the goals with an id, the first of each id,
      the first one dated today. */
  function TodayGoal(goals: seq<DailyGoal>, today: string): (r: Option<DailyGoal>)
    ensures r.Some? ==> r.value in goals && r.value.id != "" && r.value.date == today
    ensures r.Some? ==> IsFirstOfKey(WithId(goals, DailyGoalId), DailyGoalId, r.value)
    ensures r.None? <==> forall g :: g in Clean(goals, DailyGoalId) ==> g.date != today
    ensures forall i :: 0 <= i < |Clean(goals, DailyGoalId)| && Clean(goals, DailyGoalId)[i].date == today
                        && (forall j :: 0 <= j < i ==> Clean(goals, DailyGoalId)[j].date != today)
                        ==> r == Some(Clean(goals, DailyGoalId)[i])
  {
    var clean := Clean(goals, DailyGoalId);
    var r := Find(clean, (g: DailyGoal) => g.date == today);
    SubsequenceMembers(clean, goals);
    CleanIsDistinctFrom(goals, DailyGoalId);
    assert clean == DistinctBy(WithId(goals, DailyGoalId), DailyGoalId);
    DistinctByKeys(WithId(goals, DailyGoalId), DailyGoalId);
    assert forall i :: 0 <= i < |clean| && clean[i].date == today && (forall j :: 0 <= j < i ==> clean[j].date != today)
                       ==> r == Some(clean[i]) by {
      forall i | 0 <= i < |clean| && clean[i].date == today && (forall j :: 0 <= j < i ==> clean[j].date != today) {
        FindFirst(clean, (g: DailyGoal) => g.date == today, i);
      }
    }
    r
  }

  /** The screen after the document changes: goal and list recomputed,
      loading done, error cleared. */
  function Refresh(s: HomeUiState, u: EnhancedUserData, today: string): (r: HomeUiState)
    ensures r.currentDate == s.currentDate && !r.isLoading && r.error.None?
    ensures r.todos == TodayTodos(u.todos, today) && r.dailyGoal == TodayGoal(u.dailyGoals, today)
  {
    s.(dailyGoal := TodayGoal(u.dailyGoals, today), todos := TodayTodos(u.todos, today),
       isLoading := false, error := None)
  }

  /** The todo the add box creates: planned for `date`, or for today when
      no date is given; every other field at its default. */
  function NewTodo(id: string, title: string, goalId: Option<string>, date: Option<string>, today: string, now: int)
    : (t: EnhancedTodo)
    ensures t.id == id && t.title == title && t.goalId == goalId
    ensures t.date == Some(if date.Some? then date.value else today)
    ensures t.createdAt == now && t.updatedAt == now
    ensures t == DefaultTodo.(id := t.id, title := t.title, goalId := t.goalId, date := t.date,
                              createdAt := t.createdAt, updatedAt := t.updatedAt)
  {
    DefaultTodo.(id := id, title := title, goalId := goalId, date := Some(date.GetOr(today)),
                 createdAt := now, updatedAt := now)
  }

  /** `addTodo`: the new todo goes to the document. */
  function AddTodo(u: EnhancedUserData, id: string, title: string, goalId: Option<string>, date: Option<string>,
                   today: string, now: int): (r: EnhancedUserData)
    ensures r == u.(todos := r.todos)
    ensures !HasId(u.todos, TodoId, id) ==> r.todos == u.todos + [NewTodo(id, title, goalId, date, today, now)]
    ensures HasId(u.todos, TodoId, id) ==> r == u
  {
    Repository.AddTodo(u, NewTodo(id, title, goalId, date, today, now))
  }

  /** A todo added without a date under a fresh, non-empty id shows up on
      today's list once the document is reloaded. */
  lemma AddedTodoShownToday(u: EnhancedUserData, id: string, title: string, goalId: Option<string>,
                            today: string, now: int)
    requires id != "" && !HasId(u.todos, TodoId, id)
    ensures exists x :: x in TodayTodos(AddTodo(u, id, title, goalId, None, today, now).todos, today) && x.id == id
  {
    var t := NewTodo(id, title, goalId, None, today, now);
    var after := AddTodo(u, id, title, goalId, None, today, now).todos;
    assert after[|after| - 1] == t;
    assert t in after && ForToday(t, today);
  }

  /** `addDailyGoal`: a new, unfinished goal dated today goes to the document. */
  function AddDailyGoal(u: EnhancedUserData, id: string, title: string, today: string, now: int)
    : (r: EnhancedUserData)
    ensures r == u.(dailyGoals := r.dailyGoals)
    ensures !HasId(u.dailyGoals, DailyGoalId, id) ==>
      r.dailyGoals == u.dailyGoals + [DailyGoal(id, today, title, false, now)]
    ensures HasId(u.dailyGoals, DailyGoalId, id) ==> r == u
  {
    Repository.AddDailyGoal(u, DailyGoal(id, today, title, false, now))
  }

  /** Once a daily goal is added under a fresh, non-empty id, the home
      screen has a goal for today. */
  lemma AddedDailyGoalShown(u: EnhancedUserData, id: string, title: string, today: string, now: int)
    requires id != "" && !HasId(u.dailyGoals, DailyGoalId, id)
    ensures TodayGoal(AddDailyGoal(u, id, title, today, now).dailyGoals, today).Some?
  {
    var g := DailyGoal(id, today, title, false, now);
    assert AddDailyGoal(u, id, title, today, now).dailyGoals == u.dailyGoals + [g];
    FreshAppendKept(u.dailyGoals, g, DailyGoalId);
  }

  /** `toggleDailyGoalComplete`: nothing without a goal; otherwise the
      goal's completion flips in the document and on screen. */
  function ToggleDailyGoal(s: HomeUiState, u: EnhancedUserData): (r: (HomeUiState, EnhancedUserData))
    ensures s.dailyGoal.None? ==> r == (s, u)
    ensures s.dailyGoal.Some? ==>
      var g := s.dailyGoal.value;
      var g' := g.(isCompleted := !g.isCompleted);
      && r.0 == s.(dailyGoal := Some(g'))
      && r.1 == u.(dailyGoals := r.1.dailyGoals)
      && |r.1.dailyGoals| == |u.dailyGoals|
      && forall i :: 0 <= i < |u.dailyGoals| ==>
           r.1.dailyGoals[i] == if u.dailyGoals[i].id == g.id then g' else u.dailyGoals[i]
  {
    match s.dailyGoal
    case None => (s, u)
    case Some(g) =>
      var g' := g.(isCompleted := !g.isCompleted);
      (s.(dailyGoal := Some(g')), Repository.UpdateDailyGoal(u, g'))
  }

  /** Toggling twice restores the screen, and restores the document when
      the goal on screen is the document's only goal with its id. */
  lemma ToggleDailyGoalTwice(s: HomeUiState, u: EnhancedUserData)
    requires s.dailyGoal.Some? ==>
      forall i :: 0 <= i < |u.dailyGoals| && u.dailyGoals[i].id == s.dailyGoal.value.id ==>
        u.dailyGoals[i] == s.dailyGoal.value
    ensures var (s1, u1) := ToggleDailyGoal(s, u);
      ToggleDailyGoal(s1, u1) == (s, u)
  {
    var (s1, u1) := ToggleDailyGoal(s, u);
    var (s2, u2) := ToggleDailyGoal(s1, u1);
    if s.dailyGoal.Some? {
      assert s2 == s;
      assert u2.dailyGoals == u.dailyGoals;
    }
  }

  /** `updateTodo` on screen: the todo replaces every entry with its id,
      then the list is re-sorted by creation time. */
  function UpdateTodo(s: HomeUiState, todo: EnhancedTodo): (r: HomeUiState)
    ensures r == s.(todos := r.todos)
    ensures SortedBy(r.todos, CreatedKey)
    ensures multiset(r.todos) == multiset(ReplaceById(s.todos, todo, TodoId))
    ensures KeysUnique(s.todos, TodoId) ==> KeysUnique(r.todos, TodoId)
    ensures HasId(s.todos, TodoId, todo.id) ==> todo in r.todos
    ensures forall k :: WithKey(r.todos, CreatedKey, k) == WithKey(ReplaceById(s.todos, todo, TodoId), CreatedKey, k)
  {
    var replaced := ReplaceById(s.todos, todo, TodoId);
    var sorted := SortBy(replaced, CreatedKey);
    SortBySorted(replaced, CreatedKey);
    forall k {
      SortByStable(replaced, CreatedKey, k);
    }
    ReplaceByIdFacts(s.todos, todo, TodoId);
    assert KeysUnique(s.todos, TodoId) ==> KeysUnique(sorted, TodoId) by {
      if KeysUnique(s.todos, TodoId) {
        PermutationKeysUnique(replaced, sorted, TodoId);
      }
    }
    assert HasId(s.todos, TodoId, todo.id) ==> todo in sorted by {
      if HasId(s.todos, TodoId, todo.id) {
        var i :| 0 <= i < |s.todos| && TodoId(s.todos[i]) == todo.id;
        assert replaced[i] == todo;
        assert todo in multiset(sorted);
      }
    }
    s.(todos := sorted)
  }

  /** `deleteTodo` on screen: entries with the id go, the rest stay in order. */
  function DeleteTodo(s: HomeUiState, todoId: string): (r: HomeUiState)
    ensures r == s.(todos := r.todos)
    ensures !HasId(r.todos, TodoId, todoId)
    ensures IsSubsequence(r.todos, s.todos)
    ensures forall t :: t in s.todos && t.id != todoId ==> t in r.todos
  {
    s.(todos := RemoveById(s.todos, todoId, TodoId))
  }

  /** Deleting keeps today's list sorted. */
  lemma DeleteKeepsSorted(s: HomeUiState, todoId: string)
    requires SortedBy(s.todos, CreatedKey)
    ensures SortedBy(DeleteTodo(s, todoId).todos, CreatedKey)
  {
    var r := DeleteTodo(s, todoId).todos;
    SubsequenceSorted(r, s.todos, CreatedKey);
  }
}
