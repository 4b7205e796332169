/** The in-memory state transitions of `UgoalRepository`: each operation
    maps the current user document to the next one (the Firestore write
    that follows is not modelled). Clock reads are the parameter `now`. */
module Repository {
  import opened Wrappers
  import opened Dates
  import opened Seqs
  import opened ById
  import opened Models

  // ---------------------------------------------------------------------
  // Load

  /** Every collection holds unique, non-empty ids. */
  predicate IsClean(u: EnhancedUserData) {
    && KeysUnique(u.bigGoals, BigGoalId) && (forall i :: 0 <= i < |u.bigGoals| ==> u.bigGoals[i].id != "")
    && KeysUnique(u.dailyGoals, DailyGoalId) && (forall i :: 0 <= i < |u.dailyGoals| ==> u.dailyGoals[i].id != "")
    && KeysUnique(u.todos, TodoId) && (forall i :: 0 <= i < |u.todos| ==> u.todos[i].id != "")
    && KeysUnique(u.smartLists, SmartListId) && (forall i :: 0 <= i < |u.smartLists| ==> u.smartLists[i].id != "")
    && KeysUnique(u.habits, HabitId) && (forall i :: 0 <= i < |u.habits| ==> u.habits[i].id != "")
    && KeysUnique(u.calendarEvents, EventId) && (forall i :: 0 <= i < |u.calendarEvents| ==> u.calendarEvents[i].id != "")
    && KeysUnique(u.comments, CommentId) && (forall i :: 0 <= i < |u.comments| ==> u.comments[i].id != "")
    && KeysUnique(u.sharedLists, SharedListId) && (forall i :: 0 <= i < |u.sharedLists| ==> u.sharedLists[i].id != "")
  }

  /** `loadUserData`'s cleaning of the fetched document: every collection
      loses its empty-id elements and all but the first element of each id. */
  function LoadUserData(data: EnhancedUserData): (r: EnhancedUserData)
    ensures IsClean(r)
    ensures r.userId == data.userId && r.tags == data.tags
    ensures IsSubsequence(r.todos, data.todos) && IsSubsequence(r.bigGoals, data.bigGoals)
    ensures IsSubsequence(r.dailyGoals, data.dailyGoals)
  {
    data.(
      bigGoals := Clean(data.bigGoals, BigGoalId),
      dailyGoals := Clean(data.dailyGoals, DailyGoalId),
      todos := Clean(data.todos, TodoId),
      smartLists := Clean(data.smartLists, SmartListId),
      habits := Clean(data.habits, HabitId),
      calendarEvents := Clean(data.calendarEvents, EventId),
      comments := Clean(data.comments, CommentId),
      sharedLists := Clean(data.sharedLists, SharedListId))
  }

  /** Loading is idempotent: a cleaned document cleans to itself. */
  lemma LoadIdempotent(data: EnhancedUserData)
    ensures LoadUserData(LoadUserData(data)) == LoadUserData(data)
  {
    CleanIdempotent(data.bigGoals, BigGoalId);
    CleanIdempotent(data.dailyGoals, DailyGoalId);
    CleanIdempotent(data.todos, TodoId);
    CleanIdempotent(data.smartLists, SmartListId);
    CleanIdempotent(data.habits, HabitId);
    CleanIdempotent(data.calendarEvents, EventId);
    CleanIdempotent(data.comments, CommentId);
    CleanIdempotent(data.sharedLists, SharedListId);
  }

  /** No todo id is lost on load, and the todo kept for an id is the first
      one the document held. */
  lemma LoadKeepsFirstTodo(data: EnhancedUserData)
    ensures forall t :: t in data.todos && t.id != "" ==> t.id in Map(LoadUserData(data).todos, TodoId)
    ensures forall t :: t in LoadUserData(data).todos ==> IsFirstOfKey(data.todos, TodoId, t)
  {
    CleanKeepsFirst(data.todos, TodoId);
  }

  /** Every collection of the loaded document is the clean form of the
      fetched one: unique non-empty ids, fetched order, no non-empty id
      lost, and for each id the first element the document held. */
  lemma LoadCleansEach(data: EnhancedUserData)
    ensures var r := LoadUserData(data);
      && CleanOf(r.bigGoals, data.bigGoals, BigGoalId)
      && CleanOf(r.dailyGoals, data.dailyGoals, DailyGoalId)
      && CleanOf(r.todos, data.todos, TodoId)
      && CleanOf(r.smartLists, data.smartLists, SmartListId)
      && CleanOf(r.habits, data.habits, HabitId)
      && CleanOf(r.calendarEvents, data.calendarEvents, EventId)
      && CleanOf(r.comments, data.comments, CommentId)
      && CleanOf(r.sharedLists, data.sharedLists, SharedListId)
  {
    CleanMeetsSpec(data.bigGoals, BigGoalId);
    CleanMeetsSpec(data.dailyGoals, DailyGoalId);
    CleanMeetsSpec(data.todos, TodoId);
    CleanMeetsSpec(data.smartLists, SmartListId);
    CleanMeetsSpec(data.habits, HabitId);
    CleanMeetsSpec(data.calendarEvents, EventId);
    CleanMeetsSpec(data.comments, CommentId);
    CleanMeetsSpec(data.sharedLists, SharedListId);
  }

  // ---------------------------------------------------------------------
  // Goals, daily goals and todos: add if absent, replace, remove

  function AddBigGoal(u: EnhancedUserData, g: BigGoal): (r: EnhancedUserData)
    ensures r == u.(bigGoals := r.bigGoals)
    ensures HasId(u.bigGoals, BigGoalId, g.id) ==> r == u
    ensures !HasId(u.bigGoals, BigGoalId, g.id) ==> r.bigGoals == u.bigGoals + [g]
    ensures IsClean(u) && g.id != "" ==> IsClean(r)
  {
    u.(bigGoals := AddIfAbsent(u.bigGoals, g, BigGoalId))
  }

  function UpdateBigGoal(u: EnhancedUserData, g: BigGoal): (r: EnhancedUserData)
    ensures r == u.(bigGoals := r.bigGoals)
    ensures |r.bigGoals| == |u.bigGoals|
    ensures forall i :: 0 <= i < |u.bigGoals| ==>
              r.bigGoals[i] == if u.bigGoals[i].id == g.id then g else u.bigGoals[i]
    ensures !HasId(u.bigGoals, BigGoalId, g.id) ==> r == u
    ensures IsClean(u) ==> IsClean(r)
  {
    ReplaceByIdFacts(u.bigGoals, g, BigGoalId);
    u.(bigGoals := ReplaceById(u.bigGoals, g, BigGoalId))
  }

  function DeleteBigGoal(u: EnhancedUserData, goalId: string): (r: EnhancedUserData)
    ensures r == u.(bigGoals := r.bigGoals)
    ensures !HasId(r.bigGoals, BigGoalId, goalId)
    ensures IsSubsequence(r.bigGoals, u.bigGoals)
    ensures forall i :: 0 <= i < |u.bigGoals| && u.bigGoals[i].id != goalId ==> u.bigGoals[i] in r.bigGoals
  {
    u.(bigGoals := RemoveById(u.bigGoals, goalId, BigGoalId))
  }

  function AddDailyGoal(u: EnhancedUserData, g: DailyGoal): (r: EnhancedUserData)
    ensures r == u.(dailyGoals := r.dailyGoals)
    ensures HasId(u.dailyGoals, DailyGoalId, g.id) ==> r == u
    ensures !HasId(u.dailyGoals, DailyGoalId, g.id) ==> r.dailyGoals == u.dailyGoals + [g]
    ensures IsClean(u) && g.id != "" ==> IsClean(r)
  {
    u.(dailyGoals := AddIfAbsent(u.dailyGoals, g, DailyGoalId))
  }

  function UpdateDailyGoal(u: EnhancedUserData, g: DailyGoal): (r: EnhancedUserData)
    ensures r == u.(dailyGoals := r.dailyGoals)
    ensures |r.dailyGoals| == |u.dailyGoals|
    ensures forall i :: 0 <= i < |u.dailyGoals| ==>
              r.dailyGoals[i] == if u.dailyGoals[i].id == g.id then g else u.dailyGoals[i]
    ensures !HasId(u.dailyGoals, DailyGoalId, g.id) ==> r == u
  {
    ReplaceByIdFacts(u.dailyGoals, g, DailyGoalId);
    u.(dailyGoals := ReplaceById(u.dailyGoals, g, DailyGoalId))
  }

  function AddTodo(u: EnhancedUserData, t: EnhancedTodo): (r: EnhancedUserData)
    ensures r == u.(todos := r.todos)
    ensures HasId(u.todos, TodoId, t.id) ==> r == u
    ensures !HasId(u.todos, TodoId, t.id) ==> r.todos == u.todos + [t]
    ensures IsClean(u) && t.id != "" ==> IsClean(r)
  {
    u.(todos := AddIfAbsent(u.todos, t, TodoId))
  }

  function UpdateTodo(u: EnhancedUserData, t: EnhancedTodo): (r: EnhancedUserData)
    ensures r == u.(todos := r.todos)
    ensures |r.todos| == |u.todos|
    ensures forall i :: 0 <= i < |u.todos| ==> r.todos[i] == if u.todos[i].id == t.id then t else u.todos[i]
    ensures !HasId(u.todos, TodoId, t.id) ==> r == u
    ensures IsClean(u) ==> IsClean(r)
  {
    ReplaceByIdFacts(u.todos, t, TodoId);
    u.(todos := ReplaceById(u.todos, t, TodoId))
  }

  function DeleteTodo(u: EnhancedUserData, todoId: string): (r: EnhancedUserData)
    ensures r == u.(todos := r.todos)
    ensures !HasId(r.todos, TodoId, todoId)
    ensures IsSubsequence(r.todos, u.todos)
    ensures forall i :: 0 <= i < |u.todos| && u.todos[i].id != todoId ==> u.todos[i] in r.todos
  {
    u.(todos := RemoveById(u.todos, todoId, TodoId))
  }

  /** Deleting a todo just added leaves the document as deleting alone would. */
  lemma DeleteAfterAddTodo(u: EnhancedUserData, t: EnhancedTodo)
    ensures DeleteTodo(AddTodo(u, t), t.id) == DeleteTodo(u, t.id)
  {
    RemoveAfterAdd(u.todos, t, TodoId);
  }

  /** Adding the same todo twice is adding it once. */
  lemma AddTodoIdempotent(u: EnhancedUserData, t: EnhancedTodo)
    ensures AddTodo(AddTodo(u, t), t) == AddTodo(u, t)
  {
    AddIfAbsentIdempotent(u.todos, t, TodoId);
  }

  // ---------------------------------------------------------------------
  // Toggling a todo

  /** `toggleTodoComplete`: the first todo with the id, with its completion
      flipped and `completedAt` stamped `now` when it becomes completed,
      replaces every todo with that id; an absent id is a failure. */
  function ToggleTodoComplete(u: EnhancedUserData, todoId: string, now: int): (r: Result<EnhancedUserData>)
    ensures r.Failure? <==> !HasId(u.todos, TodoId, todoId)
    ensures r.Success? ==> r.value == u.(todos := r.value.todos) && |r.value.todos| == |u.todos|
    ensures r.Success? ==> forall i :: 0 <= i < |u.todos| && u.todos[i].id != todoId ==> r.value.todos[i] == u.todos[i]
    ensures r.Success? ==>
      var first := Find(u.todos, (t: EnhancedTodo) => t.id == todoId).value;
      forall i :: 0 <= i < |u.todos| && u.todos[i].id == todoId ==>
        && r.value.todos[i].isCompleted == !first.isCompleted
        && (r.value.todos[i].completedAt.Some? <==> r.value.todos[i].isCompleted)
        && (r.value.todos[i].isCompleted ==> r.value.todos[i].completedAt == Some(now))
        && r.value.todos[i] == first.(isCompleted := r.value.todos[i].isCompleted,
                                    completedAt := r.value.todos[i].completedAt)
  {
    match Find(u.todos, (t: EnhancedTodo) => t.id == todoId)
    case None => Failure("Todo not found")
    case Some(t) =>
      var toggled := t.(isCompleted := !t.isCompleted,
                        completedAt := if !t.isCompleted then Some(now) else None);
      Success(UpdateTodo(u, toggled))
  }

  /** On a document with unique ids, toggling twice restores the flag
      and leaves `completedAt` empty exactly when the todo is open. */
  lemma ToggleTwice(u: EnhancedUserData, todoId: string, now1: int, now2: int, i: int)
    requires KeysUnique(u.todos, TodoId)
    requires 0 <= i < |u.todos| && u.todos[i].id == todoId
    ensures ToggleTodoComplete(u, todoId, now1).Success?
    ensures var v := ToggleTodoComplete(u, todoId, now1).value;
      ToggleTodoComplete(v, todoId, now2).Success?
      && var w := ToggleTodoComplete(v, todoId, now2).value;
      w.todos[i] == u.todos[i].(completedAt := w.todos[i].completedAt)
      && (w.todos[i].completedAt.None? <==> !u.todos[i].isCompleted)
  {
    FindFirst(u.todos, (t: EnhancedTodo) => t.id == todoId, i);
    var v := ToggleTodoComplete(u, todoId, now1).value;
    FindFirst(v.todos, (t: EnhancedTodo) => t.id == todoId, i);
  }

  /** `getTodosForDate`: the todos planned for `date`, in order. */
  function GetTodosForDate(u: EnhancedUserData, date: string): (r: seq<EnhancedTodo>)
    ensures IsSubsequence(r, u.todos)
    ensures forall t :: t in r <==> t in u.todos && t.date == Some(date)
    ensures forall t :: multiset(r)[t] == if t.date == Some(date) then multiset(u.todos)[t] else 0
  {
    FilterCounts(u.todos, (t: EnhancedTodo) => t.date == Some(date));
    FilterIsSubsequence(u.todos, (t: EnhancedTodo) => t.date == Some(date));
    FilterMembers(u.todos, (t: EnhancedTodo) => t.date == Some(date));
    Filter(u.todos, (t: EnhancedTodo) => t.date == Some(date))
  }

  /** `getDailyGoalForDate`: the first daily goal for `date`, if any. */
  function GetDailyGoalForDate(u: EnhancedUserData, date: string): (r: Option<DailyGoal>)
    ensures r.None? <==> forall i :: 0 <= i < |u.dailyGoals| ==> u.dailyGoals[i].date != date
    ensures r.Some? ==> r.value in u.dailyGoals && r.value.date == date
    ensures r.Some? ==>
      exists i :: 0 <= i < |u.dailyGoals| && u.dailyGoals[i] == r.value && forall j :: 0 <= j < i ==> u.dailyGoals[j].date != date
  {
    var r := Find(u.dailyGoals, (g: DailyGoal) => g.date == date);
    assert r.Some? ==>
      exists i :: 0 <= i < |u.dailyGoals| && u.dailyGoals[i] == r.value && forall j :: 0 <= j < i ==> u.dailyGoals[j].date != date by {
      if r.Some? {
        var i := FirstIndex(u.dailyGoals, date);
        FindFirst(u.dailyGoals, (g: DailyGoal) => g.date == date, i);
      }
    }
    r
  }

  function FirstIndex(s: seq<DailyGoal>, date: string): (i: int)
    requires exists i :: 0 <= i < |s| && s[i].date == date
    ensures 0 <= i < |s| && s[i].date == date
    ensures forall j :: 0 <= j < i ==> s[j].date != date
  {
    if s[0].date == date then 0
    else
      assert exists i :: 0 <= i < |s[1..]| && s[1..][i].date == date by {
        var i :| 0 <= i < |s| && s[i].date == date;
        assert s[1..][i - 1] == s[i];
      }
      1 + FirstIndex(s[1..], date)
  }

  // ---------------------------------------------------------------------
  // Smart lists, habits, events, comments, shared lists: plain append

  function AddSmartList(u: EnhancedUserData, l: SmartList): (r: EnhancedUserData)
    ensures r == u.(smartLists := u.smartLists + [l])
    ensures |r.smartLists| == |u.smartLists| + 1 && r.smartLists[|u.smartLists|] == l
  {
    u.(smartLists := u.smartLists + [l])
  }

  function UpdateSmartList(u: EnhancedUserData, l: SmartList): (r: EnhancedUserData)
    ensures r == u.(smartLists := r.smartLists) && |r.smartLists| == |u.smartLists|
    ensures forall i :: 0 <= i < |u.smartLists| ==>
              r.smartLists[i] == if u.smartLists[i].id == l.id then l else u.smartLists[i]
  {
    u.(smartLists := ReplaceById(u.smartLists, l, SmartListId))
  }

  function DeleteSmartList(u: EnhancedUserData, listId: string): (r: EnhancedUserData)
    ensures r == u.(smartLists := r.smartLists)
    ensures !HasId(r.smartLists, SmartListId, listId) && IsSubsequence(r.smartLists, u.smartLists)
    ensures forall i :: 0 <= i < |u.smartLists| && u.smartLists[i].id != listId ==> u.smartLists[i] in r.smartLists
  {
    u.(smartLists := RemoveById(u.smartLists, listId, SmartListId))
  }

  function AddHabit(u: EnhancedUserData, h: Habit): (r: EnhancedUserData)
    ensures r == u.(habits := u.habits + [h])
    ensures |r.habits| == |u.habits| + 1 && r.habits[|u.habits|] == h
  {
    u.(habits := u.habits + [h])
  }

  function UpdateHabit(u: EnhancedUserData, h: Habit): (r: EnhancedUserData)
    ensures r == u.(habits := r.habits) && |r.habits| == |u.habits|
    ensures forall i :: 0 <= i < |u.habits| ==> r.habits[i] == if u.habits[i].id == h.id then h else u.habits[i]
  {
    u.(habits := ReplaceById(u.habits, h, HabitId))
  }

  function DeleteHabit(u: EnhancedUserData, habitId: string): (r: EnhancedUserData)
    ensures r == u.(habits := r.habits)
    ensures !HasId(r.habits, HabitId, habitId) && IsSubsequence(r.habits, u.habits)
    ensures forall i :: 0 <= i < |u.habits| && u.habits[i].id != habitId ==> u.habits[i] in r.habits
  {
    u.(habits := RemoveById(u.habits, habitId, HabitId))
  }

  function AddCalendarEvent(u: EnhancedUserData, e: CalendarEvent): (r: EnhancedUserData)
    ensures r == u.(calendarEvents := u.calendarEvents + [e])
    ensures |r.calendarEvents| == |u.calendarEvents| + 1 && r.calendarEvents[|u.calendarEvents|] == e
  {
    u.(calendarEvents := u.calendarEvents + [e])
  }

  function UpdateCalendarEvent(u: EnhancedUserData, e: CalendarEvent): (r: EnhancedUserData)
    ensures r == u.(calendarEvents := r.calendarEvents) && |r.calendarEvents| == |u.calendarEvents|
    ensures forall i :: 0 <= i < |u.calendarEvents| ==>
              r.calendarEvents[i] == if u.calendarEvents[i].id == e.id then e else u.calendarEvents[i]
  {
    u.(calendarEvents := ReplaceById(u.calendarEvents, e, EventId))
  }

  function DeleteCalendarEvent(u: EnhancedUserData, eventId: string): (r: EnhancedUserData)
    ensures r == u.(calendarEvents := r.calendarEvents)
    ensures !HasId(r.calendarEvents, EventId, eventId) && IsSubsequence(r.calendarEvents, u.calendarEvents)
    ensures forall i :: 0 <= i < |u.calendarEvents| && u.calendarEvents[i].id != eventId ==>
              u.calendarEvents[i] in r.calendarEvents
  {
    u.(calendarEvents := RemoveById(u.calendarEvents, eventId, EventId))
  }

  function AddComment(u: EnhancedUserData, c: Comment): (r: EnhancedUserData)
    ensures r == u.(comments := u.comments + [c])
    ensures |r.comments| == |u.comments| + 1 && r.comments[|u.comments|] == c
  {
    u.(comments := u.comments + [c])
  }

  function UpdateComment(u: EnhancedUserData, c: Comment): (r: EnhancedUserData)
    ensures r == u.(comments := r.comments) && |r.comments| == |u.comments|
    ensures forall i :: 0 <= i < |u.comments| ==> r.comments[i] == if u.comments[i].id == c.id then c else u.comments[i]
  {
    u.(comments := ReplaceById(u.comments, c, CommentId))
  }

  function DeleteComment(u: EnhancedUserData, commentId: string): (r: EnhancedUserData)
    ensures r == u.(comments := r.comments)
    ensures !HasId(r.comments, CommentId, commentId) && IsSubsequence(r.comments, u.comments)
    ensures forall i :: 0 <= i < |u.comments| && u.comments[i].id != commentId ==> u.comments[i] in r.comments
  {
    u.(comments := RemoveById(u.comments, commentId, CommentId))
  }

  /** The key `sortedBy { it.timestamp }`. */
  function CommentKey(c: Comment): SortKey {
    SortKey(c.timestamp, "")
  }

  /** The comments on one todo, in stored order. */
  function OnTodo(comments: seq<Comment>, todoId: string): seq<Comment> {
    Filter(comments, (c: Comment) => c.todoId == todoId)
  }

  /** `getCommentsForTodo`: the todo's comments, oldest first, ties in
      stored order. */
  function GetCommentsForTodo(u: EnhancedUserData, todoId: string): (r: seq<Comment>)
    ensures multiset(r) == multiset(OnTodo(u.comments, todoId))
    ensures forall i :: 0 <= i < |r| ==> r[i].todoId == todoId && r[i] in u.comments
    ensures forall i, j :: 0 <= i < j < |r| ==> r[i].timestamp <= r[j].timestamp
    ensures forall k :: WithKey(r, CommentKey, k) == WithKey(OnTodo(u.comments, todoId), CommentKey, k)
  {
    var mine := OnTodo(u.comments, todoId);
    var r := SortBy(mine, CommentKey);
    assert forall i, j :: 0 <= i < j < |r| ==> r[i].timestamp <= r[j].timestamp by {
      SortBySorted(mine, CommentKey);
    }
    assert forall k :: WithKey(r, CommentKey, k) == WithKey(mine, CommentKey, k) by {
      forall k {
        SortByStable(mine, CommentKey, k);
      }
    }
    assert forall i :: 0 <= i < |r| ==> r[i].todoId == todoId && r[i] in u.comments by {
      SortBySorted(mine, CommentKey);
      assert forall i :: 0 <= i < |r| ==> r[i] in multiset(mine);
    }
    r
  }

  function ShareList(u: EnhancedUserData, l: SharedList): (r: EnhancedUserData)
    ensures r == u.(sharedLists := u.sharedLists + [l])
    ensures |r.sharedLists| == |u.sharedLists| + 1 && r.sharedLists[|u.sharedLists|] == l
  {
    u.(sharedLists := u.sharedLists + [l])
  }

  function UpdateSharedList(u: EnhancedUserData, l: SharedList): (r: EnhancedUserData)
    ensures r == u.(sharedLists := r.sharedLists) && |r.sharedLists| == |u.sharedLists|
    ensures forall i :: 0 <= i < |u.sharedLists| ==>
              r.sharedLists[i] == if u.sharedLists[i].id == l.id then l else u.sharedLists[i]
  {
    u.(sharedLists := ReplaceById(u.sharedLists, l, SharedListId))
  }

  function RemoveSharedList(u: EnhancedUserData, sharedListId: string): (r: EnhancedUserData)
    ensures r == u.(sharedLists := r.sharedLists)
    ensures !HasId(r.sharedLists, SharedListId, sharedListId) && IsSubsequence(r.sharedLists, u.sharedLists)
    ensures forall i :: 0 <= i < |u.sharedLists| && u.sharedLists[i].id != sharedListId ==>
              u.sharedLists[i] in r.sharedLists
  {
    u.(sharedLists := RemoveById(u.sharedLists, sharedListId, SharedListId))
  }

  // ---------------------------------------------------------------------
  // Habit completion and streaks

  /** A day counts towards a streak when its history entry is positive. */
  predicate DoneOn(history: map<string, int>, d: LocalDate) {
    ToString(d) in history && history[ToString(d)] > 0
  }

  /** The printed forms of the `n` days ending at `d`. */
  ghost function DayTexts(d: LocalDate, n: nat): set<string> {
    if n == 0 then {} else DayTexts(d, n - 1) + {ToString(MinusDays(d, n - 1))}
  }

  /** A day further back than the first `n` prints differently from all of them. */
  lemma {:induction false} DayTextNotIn(d: LocalDate, n: nat, m: int)
    requires m >= n
    ensures ToString(MinusDays(d, m)) !in DayTexts(d, n)
  {
    if n > 0 {
      DayTextNotIn(d, n - 1, m);
      var a, b := MinusDays(d, n - 1), MinusDays(d, m);
      assert ToString(a) == ToString(b) ==> a == b by {
        if ToString(a) == ToString(b) {
          ToStringInjective(a, b);
        }
      }
      assert EpochDay(a) != EpochDay(b);
    }
  }

  lemma AddNewElement<T>(a: set<T>, x: T)
    requires x !in a
    ensures |a + {x}| == |a| + 1
  {
  }

  /** The `n` days ending at `d` print as `n` distinct strings. */
  lemma {:induction false} DayTextsSize(d: LocalDate, n: nat)
    ensures |DayTexts(d, n)| == n
  {
    if n > 0 {
      DayTextsSize(d, n - 1);
      DayTextNotIn(d, n - 1, n - 1);
      AddNewElement(DayTexts(d, n - 1), ToString(MinusDays(d, n - 1)));
    }
  }

  /** The printed forms of done days are history keys. */
  lemma {:induction false} DayTextsAreKeys(history: map<string, int>, d: LocalDate, n: nat)
    requires forall j :: 0 <= j < n ==> DoneOn(history, MinusDays(d, j))
    ensures DayTexts(d, n) <= history.Keys
  {
    if n > 0 {
      DayTextsAreKeys(history, d, n - 1);
      assert DoneOn(history, MinusDays(d, n - 1));
    }
  }

  /** The streak continued from `k` days back, given the `k` days ending at
      `d` are all done. It ends because those days use up `k` distinct
      history keys. */
  function StreakFrom(history: map<string, int>, d: LocalDate, k: nat): (n: nat)
    requires forall j :: 0 <= j < k ==> DoneOn(history, MinusDays(d, j))
    ensures k <= n
    ensures forall j :: 0 <= j < n ==> DoneOn(history, MinusDays(d, j))
    ensures !DoneOn(history, MinusDays(d, n))
    decreases |history.Keys| - k
  {
    if DoneOn(history, MinusDays(d, k)) then
      DoneDaysAreKeys(history, d, k + 1);
      StreakFrom(history, d, k + 1)
    else k
  }

  /** `n` done days ending at `d` need `n` history keys. */
  lemma DoneDaysAreKeys(history: map<string, int>, d: LocalDate, n: nat)
    requires forall j :: 0 <= j < n ==> DoneOn(history, MinusDays(d, j))
    ensures n <= |history.Keys|
  {
    DayTextsSize(d, n);
    DayTextsAreKeys(history, d, n);
    SubsetSize(DayTexts(d, n), history.Keys);
  }

  lemma SubsetSize<T>(a: set<T>, b: set<T>)
    requires a <= b
    ensures |a| <= |b|
  {
    assert b == a + (b - a);
  }

  /** `calculateStreak`: how many consecutive days, ending at `current`,
      have a positive count in `history`. */
  function CalculateStreak(history: map<string, int>, current: LocalDate): (n: nat)
    ensures forall j :: 0 <= j < n ==> DoneOn(history, MinusDays(current, j))
    ensures !DoneOn(history, MinusDays(current, n))
    ensures n <= |history.Keys|
  {
    var n := StreakFrom(history, current, 0);
    DoneDaysAreKeys(history, current, n);
    n
  }

  /** The streak is the length of the run: any count meeting the run
      conditions equals it. */
  lemma StreakUnique(history: map<string, int>, current: LocalDate, m: nat)
    requires forall j :: 0 <= j < m ==> DoneOn(history, MinusDays(current, j))
    requires !DoneOn(history, MinusDays(current, m))
    ensures CalculateStreak(history, current) == m
  {
  }

  /** One habit after a completion on `date`; a date that does not parse
      is the exception LocalDate.parse throws. */
  function CompleteHabitOn(h: Habit, date: string): (r: Result<Habit>)
    ensures r.Failure? <==> Parse(date).None?
    ensures r.Success? ==>
      r.value.completionHistory == h.completionHistory[date := (if date in h.completionHistory then h.completionHistory[date] else 0) + 1]
    ensures r.Success? ==> r.value.streakCount == CalculateStreak(r.value.completionHistory, Parse(date).value)
    ensures r.Success? ==> r.value.longestStreak >= h.longestStreak && r.value.longestStreak >= r.value.streakCount
    ensures r.Success? ==> r.value.longestStreak == h.longestStreak || r.value.longestStreak == r.value.streakCount
    ensures r.Success? ==> r.value == h.(completionHistory := r.value.completionHistory,
                                         streakCount := r.value.streakCount,
                                         longestStreak := r.value.longestStreak)
  {
    var count := if date in h.completionHistory then h.completionHistory[date] else 0;
    var history := h.completionHistory[date := count + 1];
    match Parse(date)
    case None => Failure("unparseable date")
    case Some(d) =>
      var streak := CalculateStreak(history, d);
      Success(h.(completionHistory := history,
                 streakCount := streak,
                 longestStreak := if h.longestStreak >= streak then h.longestStreak else streak))
  }

  /** With non-negative counts, completing a habit on a date makes a streak
      of at least one day, ending at that date. */
  lemma CompletionStartsStreak(h: Habit, date: string)
    requires Parse(date).Some?
    requires date in h.completionHistory ==> h.completionHistory[date] >= 0
    ensures CompleteHabitOn(h, date).value.streakCount >= 1
  {
    ToStringParse(date);
    var r := CompleteHabitOn(h, date).value;
    assert MinusDays(Parse(date).value, 0) == Parse(date).value;
    assert DoneOn(r.completionHistory, MinusDays(Parse(date).value, 0));
  }

  /** `completeHabit`: every habit with the id is completed on `date`. */
  function CompleteHabit(u: EnhancedUserData, habitId: string, date: string): (r: Result<EnhancedUserData>)
    ensures r.Failure? <==> HasId(u.habits, HabitId, habitId) && Parse(date).None?
    ensures r.Success? ==> r.value == u.(habits := r.value.habits) && |r.value.habits| == |u.habits|
    ensures r.Success? ==> forall i :: 0 <= i < |u.habits| ==>
              r.value.habits[i] == if u.habits[i].id == habitId then CompleteHabitOn(u.habits[i], date).value
                                   else u.habits[i]
    ensures !HasId(u.habits, HabitId, habitId) ==> r == Success(u)
  {
    if !HasId(u.habits, HabitId, habitId) then
      Success(u)
    else if Parse(date).None? then Failure("unparseable date")
    else
      Success(u.(habits := Map(u.habits, (h: Habit) => if h.id == habitId then CompleteHabitOn(h, date).value else h)))
  }

  // ---------------------------------------------------------------------
  // Tags

  /** `addTag`: appends a tag that is not there yet. */
  function AddTag(u: EnhancedUserData, tag: string): (r: EnhancedUserData)
    ensures r == u.(tags := r.tags)
    ensures tag in r.tags
    ensures tag in u.tags ==> r == u
    ensures tag !in u.tags ==> r.tags == u.tags + [tag]
    ensures (forall i, j :: 0 <= i < j < |u.tags| ==> u.tags[i] != u.tags[j]) ==>
            (forall i, j :: 0 <= i < j < |r.tags| ==> r.tags[i] != r.tags[j])
  {
    if tag in u.tags then u else u.(tags := u.tags + [tag])
  }

  lemma AddTagIdempotent(u: EnhancedUserData, tag: string)
    ensures AddTag(AddTag(u, tag), tag) == AddTag(u, tag)
  {
  }

  /** `removeTag`: drops every occurrence of the tag. */
  function RemoveTag(u: EnhancedUserData, tag: string): (r: EnhancedUserData)
    ensures r == u.(tags := r.tags)
    ensures tag !in r.tags
    ensures forall t :: t in r.tags <==> t in u.tags && t != tag
    ensures IsSubsequence(r.tags, u.tags)
    ensures forall t :: multiset(r.tags)[t] == if t == tag then 0 else multiset(u.tags)[t]
  {
    FilterCounts(u.tags, (t: string) => t != tag);
    FilterMembers(u.tags, (t: string) => t != tag);
    FilterIsSubsequence(u.tags, (t: string) => t != tag);
    u.(tags := Filter(u.tags, (t: string) => t != tag))
  }

  /** Removing a tag undoes adding it when it was new. */
  lemma RemoveAfterAddTag(u: EnhancedUserData, tag: string)
    requires tag !in u.tags
    ensures RemoveTag(AddTag(u, tag), tag) == u
  {
    FilterAppend(u.tags, [tag], (t: string) => t != tag);
    FilterAll(u.tags, (t: string) => t != tag);
  }

  /** `getAllTags`: the tags in ascending string order. */
  function GetAllTags(u: EnhancedUserData): (r: seq<string>)
    ensures multiset(r) == multiset(u.tags)
    ensures forall i, j :: 0 <= i < j < |r| ==> TextLe(r[i], r[j])
  {
    var r := SortBy(u.tags, (t: string) => SortKey(0, t));
    SortBySorted(u.tags, (t: string) => SortKey(0, t));
    r
  }
}
