/** `GoalsViewModel`: the goal list of the goals screen, each goal carrying
    its own todos, and the screen-side effect of editing or deleting a
    goal. Logging is not modelled. */
module Goals {
  import opened Wrappers
  import opened Seqs
  import opened ById
  import opened Models
  import Repository

  datatype GoalsUiState = GoalsUiState(bigGoals: seq<BigGoal>, isLoading: bool, error: Option<string>)

  function GoalCreatedKey(g: BigGoal): SortKey { SortKey(g.createdAt, "") }

  predicate OfGoal(t: EnhancedTodo, goalId: string) {
    t.goalId == Some(goalId) && t.id != ""
  }

  /** The todos pointing at a goal and having an id, in stored order. */
  function Mine(todos: seq<EnhancedTodo>, goalId: string): seq<EnhancedTodo> {
    Filter(todos, (t: EnhancedTodo) => OfGoal(t, goalId))
  }

  /** A goal's todos: those pointing at it and having an id, the first of
      each id, in stored order. */
  function GoalTodos(todos: seq<EnhancedTodo>, goalId: string): (r: seq<EnhancedTodo>)
    ensures KeysUnique(r, TodoId)
    ensures IsSubsequence(r, todos)
    ensures forall t :: t in r ==> OfGoal(t, goalId)
    ensures forall t :: t in todos && OfGoal(t, goalId) ==> t.id in Map(r, TodoId)
    ensures forall t :: t in r ==> IsFirstOfKey(Mine(todos, goalId), TodoId, t)
    ensures InFirstOccurrenceOrder(r, Mine(todos, goalId), TodoId)
  {
    var mine := Mine(todos, goalId);
    var r := DistinctBy(mine, TodoId);
    FilterIsSubsequence(todos, (t: EnhancedTodo) => OfGoal(t, goalId));
    SubsequenceTrans(r, mine, todos);
    SubsequenceMembers(r, mine);
    FilterMembers(todos, (t: EnhancedTodo) => OfGoal(t, goalId));
    DistinctByKeys(mine, TodoId);
    DistinctFromOrder(mine, TodoId, {});
    r
  }

  /** A goal as the screen shows it: the stored goal with its todos attached. */
  function WithTodos(g: BigGoal, todos: seq<EnhancedTodo>): BigGoal {
    g.(todos := GoalTodos(todos, g.id))
  }

  /** The cleaned goals, each with its todos attached, in stored order. */
  function Shown(u: EnhancedUserData): seq<BigGoal> {
    Map(Clean(u.bigGoals, BigGoalId), (g: BigGoal) => WithTodos(g, u.todos))
  }

  lemma ShownFacts(u: EnhancedUserData)
    ensures KeysUnique(Shown(u), BigGoalId)
    ensures forall g :: g in Shown(u) <==> exists g0 :: g0 in Clean(u.bigGoals, BigGoalId) && g == WithTodos(g0, u.todos)
    ensures forall g0 :: g0 in u.bigGoals && g0.id != "" ==> exists g :: g in Shown(u) && g.id == g0.id
  {
    var clean := Clean(u.bigGoals, BigGoalId);
    var shown := Shown(u);
    assert forall i :: 0 <= i < |shown| ==> BigGoalId(shown[i]) == BigGoalId(clean[i]);
    CleanKeepsFirst(u.bigGoals, BigGoalId);
    forall g0 | g0 in u.bigGoals && g0.id != ""
      ensures exists g :: g in shown && g.id == g0.id
    {
      var ids := Map(clean, BigGoalId);
      var k :| 0 <= k < |ids| && ids[k] == g0.id;
      assert shown[k] in shown;
    }
  }

  /** The goal list: goals with an id, the first of each id, each with its
      todos, ordered by creation time (ties keep the stored order). */
  function GoalList(u: EnhancedUserData): (r: seq<BigGoal>)
    ensures SortedBy(r, GoalCreatedKey)
    ensures KeysUnique(r, BigGoalId)
    ensures |r| == |Clean(u.bigGoals, BigGoalId)|
    ensures forall g :: g in r <==> exists g0 :: g0 in Clean(u.bigGoals, BigGoalId) && g == WithTodos(g0, u.todos)
    ensures forall g0 :: g0 in u.bigGoals && g0.id != "" ==> exists g :: g in r && g.id == g0.id
    ensures forall k :: WithKey(r, GoalCreatedKey, k) == WithKey(Shown(u), GoalCreatedKey, k)
  {
    var shown := Shown(u);
    var r := SortBy(shown, GoalCreatedKey);
    SortBySorted(shown, GoalCreatedKey);
    forall k {
      SortByStable(shown, GoalCreatedKey, k);
    }
    ShownFacts(u);
    PermutationKeysUnique(shown, r, BigGoalId);
    assert forall g :: g in r <==> g in shown by {
      assert forall g :: g in r <==> g in multiset(shown);
    }
    r
  }

  /** The screen after the document changes. */
  function Refresh(s: GoalsUiState, u: EnhancedUserData): (r: GoalsUiState)
    ensures r.bigGoals == GoalList(u) && !r.isLoading && r.error.None?
  {
    GoalsUiState(GoalList(u), false, None)
  }

  /** `addGoal`: a goal with no todos yet, created at `now`, goes to the
      document; the colour and icon default as in the source. */
  function AddGoal(u: EnhancedUserData, id: string, title: string, color: string, icon: string, now: int)
    : (r: EnhancedUserData)
    ensures r == u.(bigGoals := r.bigGoals)
    ensures !HasId(u.bigGoals, BigGoalId, id) ==> r.bigGoals == u.bigGoals + [BigGoal(id, title, color, icon, now, [])]
    ensures HasId(u.bigGoals, BigGoalId, id) ==> r == u
  {
    Repository.AddBigGoal(u, BigGoal(id, title, color, icon, now, []))
  }

  /** `addTodoToGoal`: a todo pointing at the goal, with no planned date. */
  function AddTodoToGoal(u: EnhancedUserData, goalId: string, id: string, title: string, now: int)
    : (r: EnhancedUserData)
    ensures r == u.(todos := r.todos)
    ensures !HasId(u.todos, TodoId, id) ==>
      r.todos == u.todos + [DefaultTodo.(id := id, title := title, goalId := Some(goalId),
                                          createdAt := now, updatedAt := now)]
    ensures HasId(u.todos, TodoId, id) ==> r == u
  {
    Repository.AddTodo(u, DefaultTodo.(id := id, title := title, goalId := Some(goalId),
                                       createdAt := now, updatedAt := now))
  }

  /** A todo added to a goal under a fresh, non-empty id is among that
      goal's todos on screen, and adds nothing to any other goal. */
  lemma AddedTodoShownUnderGoal(u: EnhancedUserData, goalId: string, id: string, title: string, now: int, other: BigGoal)
    requires id != "" && !HasId(u.todos, TodoId, id)
    requires other.id != goalId
    ensures exists x :: x in GoalTodos(AddTodoToGoal(u, goalId, id, title, now).todos, goalId) && x.id == id
    ensures Progress(WithTodos(other, AddTodoToGoal(u, goalId, id, title, now).todos))
         == Progress(WithTodos(other, u.todos))
  {
    var after := AddTodoToGoal(u, goalId, id, title, now).todos;
    var t := after[|after| - 1];
    assert t in after && OfGoal(t, goalId);
    ProgressIgnoresOtherGoals(other, u.todos, t);
  }

  /** `updateGoal` on screen: the goal replaces every entry with its id,
      then the list is re-sorted by creation time. */
  function UpdateGoal(s: GoalsUiState, goal: BigGoal): (r: GoalsUiState)
    ensures r == s.(bigGoals := r.bigGoals)
    ensures |r.bigGoals| == |s.bigGoals|
    ensures SortedBy(r.bigGoals, GoalCreatedKey)
    ensures multiset(r.bigGoals) == multiset(ReplaceById(s.bigGoals, goal, BigGoalId))
    ensures KeysUnique(s.bigGoals, BigGoalId) ==> KeysUnique(r.bigGoals, BigGoalId)
    ensures HasId(s.bigGoals, BigGoalId, goal.id) ==> goal in r.bigGoals
    ensures forall k :: WithKey(r.bigGoals, GoalCreatedKey, k) == WithKey(ReplaceById(s.bigGoals, goal, BigGoalId), GoalCreatedKey, k)
  {
    var replaced := ReplaceById(s.bigGoals, goal, BigGoalId);
    var sorted := SortBy(replaced, GoalCreatedKey);
    SortBySorted(replaced, GoalCreatedKey);
    forall k {
      SortByStable(replaced, GoalCreatedKey, k);
    }
    ReplaceByIdFacts(s.bigGoals, goal, BigGoalId);
    assert KeysUnique(s.bigGoals, BigGoalId) ==> KeysUnique(sorted, BigGoalId) by {
      if KeysUnique(s.bigGoals, BigGoalId) {
        PermutationKeysUnique(replaced, sorted, BigGoalId);
      }
    }
    assert HasId(s.bigGoals, BigGoalId, goal.id) ==> goal in sorted by {
      if HasId(s.bigGoals, BigGoalId, goal.id) {
        var i :| 0 <= i < |s.bigGoals| && BigGoalId(s.bigGoals[i]) == goal.id;
        assert replaced[i] == goal;
        assert goal in multiset(sorted);
      }
    }
    s.(bigGoals := sorted)
  }

  /** `deleteGoal` on screen: entries with the id go, the rest stay in order. */
  function DeleteGoal(s: GoalsUiState, goalId: string): (r: GoalsUiState)
    ensures r == s.(bigGoals := r.bigGoals)
    ensures !HasId(r.bigGoals, BigGoalId, goalId)
    ensures IsSubsequence(r.bigGoals, s.bigGoals)
    ensures forall g :: g in s.bigGoals && g.id != goalId ==> g in r.bigGoals
  {
    s.(bigGoals := RemoveById(s.bigGoals, goalId, BigGoalId))
  }

  /** Deleting keeps the goal list sorted and free of duplicate ids. */
  lemma DeleteGoalKeepsOrder(s: GoalsUiState, goalId: string)
    requires SortedBy(s.bigGoals, GoalCreatedKey) && KeysUnique(s.bigGoals, BigGoalId)
    ensures SortedBy(DeleteGoal(s, goalId).bigGoals, GoalCreatedKey)
    ensures KeysUnique(DeleteGoal(s, goalId).bigGoals, BigGoalId)
  {
    var r := DeleteGoal(s, goalId).bigGoals;
    SubsequenceSorted(r, s.bigGoals, GoalCreatedKey);
    SubsequenceKeysUnique(r, s.bigGoals, BigGoalId);
  }

  /** A goal's progress on screen counts exactly its own todos: a todo of
      another goal never changes it. */
  lemma ProgressIgnoresOtherGoals(g: BigGoal, todos: seq<EnhancedTodo>, t: EnhancedTodo)
    requires t.goalId != Some(g.id)
    ensures Progress(WithTodos(g, todos + [t])) == Progress(WithTodos(g, todos))
  {
    var p := (x: EnhancedTodo) => OfGoal(x, g.id);
    FilterAppend(todos, [t], p);
    assert Filter([t], p) == [];
    assert Filter(todos, p) + [] == Filter(todos, p);
  }
}
