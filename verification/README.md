# ugoal core in Dafny

ugoal is an Android to-do app written in Kotlin. Users plan their day with
*daily goals* and *todos*. Todos can belong to long-running *big goals*,
whose progress is the share of their completed todos. Todos are collected
into *smart lists*, which are saved queries over priority, tags, date range,
status, goal, subtasks, due date and repetition. Todos can also be typed as
one Korean sentence, which a natural-language parser splits into a title,
a due date and time, a priority, hashtags and a goal mention. A calendar
shows the dated todos by month, week and day.

This project models the core of that app as pure Dafny functions over
immutable data:

- `Models`: the records (`EnhancedTodo`, `BigGoal`, `DailyGoal`, `Habit`,
  `SmartList`, `ListFilter`, `DateRange` and their enums), `isOverdue` and a
  goal's `progress`.
- `FilterEngine`: `applyFilter`, `createSystemLists`, `searchTodos` and
  `getTodoCount`.
- `Repository`: every in-memory state transition of `UgoalRepository`, as
  a function from the user document to the next one.
- `NlParser`: `NaturalLanguageParser.parse` and `parseTimeDescription`.
- `CalendarView` and `CalendarScreen`: the calendar view model, plus the
  arithmetic of the calendar screen. That covers the month grid, the
  event dots, the week strip, the view-type cycle and the arrow buttons.
- `Home` and `Goals`: the home and goals view models, meaning what their
  screens show and the state changes their buttons make.

Supporting modules:

- `Dates`: a proleptic Gregorian `LocalDate` with epoch days, ISO
  weekdays, and `toString`/`parse` in `yyyy-MM-dd` form.
- `Text`: ASCII lower-casing, Kotlin `trim` and `isBlank`, the regex `\s+`
  collapse, substring search and replacement.
- `Seqs`: filter, `distinctBy`, `find`, a stable `sortedBy` and
  subsequences.
- `ById`: the repository's "by id" list edits.
- `Wrappers`: `Option` and `Result`.

Clock reads (`LocalDate.now()`, `System.currentTimeMillis()`) and random
UUIDs are explicit parameters (`today`, `now`, `id`).

A few Kotlin behaviours the model keeps as written:

- `return@forEach` only skips to the next entry. In the parser's keyword
  loops, the last keyword found therefore decides. `NlParser.ParseAsWritten`
  keeps this behaviour. `NlParser.Parse` applies the three corrections listed
  under Findings.
- `sortedBy` is stable.
- `distinctBy` keeps the first element of each key.
- A due date that does not parse makes a date criterion false rather than
  raising an error.

## Model

| member | source | states |
|---|---|---|
| Models.Ordinal | app/src/main/java/com/heodongun/ugoal/data/models/Priority.kt:6-11 | the declaration order NONE < LOW < MEDIUM < HIGH gives ordinals 0..3, with NONE first and HIGH last |
| Models.IsOverdueCases | app/src/main/java/com/heodongun/ugoal/data/models/EnhancedTodo.kt:27-35 | a completed todo, one without a due date, or one whose due date does not parse is never overdue; otherwise it is overdue exactly when the due day is strictly before today |
| Models.DueTodayNotOverdue | app/src/main/java/com/heodongun/ugoal/data/models/EnhancedTodo.kt:27-35 | a todo due today (printed as `yyyy-MM-dd`) is not overdue |
| Models.DefaultTodoFields | app/src/main/java/com/heodongun/ugoal/data/models/EnhancedTodo.kt:6-25 | a default todo has no priority, tags, subtasks, repetition, goal, date or due date, and is never overdue |
| Models.CompletedCount | app/src/main/java/com/heodongun/ugoal/data/models/BigGoal.kt:16 | the count of completed todos is at most the number of todos, and equals it exactly when all are completed |
| Models.Progress | app/src/main/java/com/heodongun/ugoal/data/models/BigGoal.kt:14-17 | progress is 0..100; 0 with no todos; 100 exactly when there are todos and all are completed; otherwise the floor of the completed percentage |
| Models.PercentBounds | app/src/main/java/com/heodongun/ugoal/data/models/BigGoal.kt:16 | integer percentage `c*100/n` lies in 0..100, is 100 only when c == n, and brackets the exact ratio |
| Models.HalfDoneIsFifty | app/src/main/java/com/heodongun/ugoal/data/models/BigGoal.kt:14-17 | one completed todo out of two gives progress 50 |
| Dates.ParseToString | app/src/main/java/com/heodongun/ugoal/utils/FilterEngine.kt:31-36 | parsing the printed form of a date with a four-digit year gives back the date |
| Dates.ToStringParse | app/src/main/java/com/heodongun/ugoal/utils/FilterEngine.kt:44 | every text that parses is already in printed form, so a parse can be undone by printing |
| Dates.TextIsDate | app/src/main/java/com/heodongun/ugoal/utils/FilterEngine.kt:30-37 | comparing a stored date text with today's printed date is the same as parsing it and comparing dates |
| Dates.ToStringInjective | app/src/main/java/com/heodongun/ugoal/viewmodel/CalendarViewModel.kt:128-133 | distinct dates print differently, for every year, so matching on printed text identifies one day |
| Dates.EpochOrder | app/src/main/java/com/heodongun/ugoal/utils/FilterEngine.kt:45 | `LocalDate` comparison agrees with the order of epoch days, and equal epoch days mean equal dates |
| Dates.WeekdayPlusDays | app/src/main/java/com/heodongun/ugoal/utils/FilterEngine.kt:40 | moving n days moves the ISO weekday by n modulo 7 |
| Dates.WeekdayWithinWeek | app/src/main/java/com/heodongun/ugoal/utils/FilterEngine.kt:40 | a step forwards or backwards that stays inside one Monday-to-Sunday week adds the step to the ISO weekday, so `today + (7 - dow)` is a Sunday |
| Dates.WeekdayIntoNextWeek | app/src/main/java/com/heodongun/ugoal/utils/FilterEngine.kt:54 | a step that crosses into the following week adds the step less seven, so `today + (8 - dow)` is a Monday |
| Dates.DaysBeforeYearClosed | app/src/main/java/com/heodongun/ugoal/utils/FilterEngine.kt:40 | the year-by-year day count agrees with the closed leap-year formula `LocalDate.toEpochDay` uses, for every year |
| Dates.PlusDaysAdd | app/src/main/java/com/heodongun/ugoal/viewmodel/CalendarViewModel.kt:84-100 | moving m days and then n days is moving m+n days |
| FilterEngine.EndOfWeek | app/src/main/java/com/heodongun/ugoal/utils/FilterEngine.kt:39-40 | the end of this week is a Sunday 0..6 days after today, and is today exactly when today is Sunday |
| FilterEngine.StartOfNextWeek | app/src/main/java/com/heodongun/ugoal/utils/FilterEngine.kt:53-54 | the start of next week is the Monday right after this week's Sunday, 1..7 days after today |
| FilterEngine.ParseBound | app/src/main/java/com/heodongun/ugoal/utils/FilterEngine.kt:90-91 | a missing bound is no bound; a present bound succeeds exactly when it parses, and then it is that date's printed form |
| FilterEngine.StatusPartition | app/src/main/java/com/heodongun/ugoal/utils/FilterEngine.kt:112-116 | each todo has exactly one of ACTIVE, COMPLETED and OVERDUE, and OVERDUE is `isOverdue` |
| FilterEngine.NarrowIsFilter | app/src/main/java/com/heodongun/ugoal/utils/FilterEngine.kt:13-145 | running the criteria one after another equals one filter by all the criteria that are switched on |
| FilterEngine.PassesAllIsMatches | app/src/main/java/com/heodongun/ugoal/utils/FilterEngine.kt:15-145 | passing every switched-on criterion is the same as the independent reading `Matches` of the whole filter |
| FilterEngine.NarrowMatches | app/src/main/java/com/heodongun/ugoal/utils/FilterEngine.kt:13-145 | the eight filtering steps together keep exactly the matching todos, in input order |
| FilterEngine.KeyOrderIsInOrder | app/src/main/java/com/heodongun/ugoal/utils/FilterEngine.kt:148-156 | the sort key of each criterion orders todos as the criterion says: due date ascending with nulls last, priority descending, creation time, lowercased title, manual order |
| FilterEngine.ApplyFilter | app/src/main/java/com/heodongun/ugoal/utils/FilterEngine.kt:8-157 | the result is a sub-multiset of the input; every element matches the filter; consecutive elements are in the order of the sort criterion |
| FilterEngine.ApplyFilterCount | app/src/main/java/com/heodongun/ugoal/utils/FilterEngine.kt:8-157 | a matching todo appears as often as in the input; a non-matching one does not appear at all |
| FilterEngine.ApplyFilterMembers | app/src/main/java/com/heodongun/ugoal/utils/FilterEngine.kt:8-157 | a todo is in the result exactly when it is in the input and matches the filter |
| FilterEngine.ApplyFilterStable | app/src/main/java/com/heodongun/ugoal/utils/FilterEngine.kt:148-156 | todos with equal sort keys keep their input order |
| FilterEngine.InactiveFilterIsPermutation | app/src/main/java/com/heodongun/ugoal/utils/FilterEngine.kt:13-156 | with every criterion off, the result is a reordering of the input |
| FilterEngine.DefaultFilterIsIdentity | app/src/main/java/com/heodongun/ugoal/data/models/SmartList.kt:18-28 | the default `ListFilter()` switches every criterion off, so it keeps every todo |
| FilterEngine.DefaultDateRangeKeepsParseable | app/src/main/java/com/heodongun/ugoal/utils/FilterEngine.kt:85-104 | a bare `DateRange()` (CUSTOM, no bounds) keeps exactly the todos whose due date parses |
| FilterEngine.DefaultDateRangeMatches | app/src/main/java/com/heodongun/ugoal/data/models/SmartList.kt:30-35 | the default date range accepts a todo exactly when its due date parses |
| FilterEngine.SimpleCriteria | app/src/main/java/com/heodongun/ugoal/utils/FilterEngine.kt:15-145 | a match satisfies each switched-on priority, tag, goal, subtask, due-date and recurrence criterion |
| FilterEngine.StatusCriterion | app/src/main/java/com/heodongun/ugoal/utils/FilterEngine.kt:108-119 | the status criterion keeps a todo exactly when it is completed, overdue or active and that status is listed |
| FilterEngine.CustomRangeSemantics | app/src/main/java/com/heodongun/ugoal/utils/FilterEngine.kt:85-104 | CUSTOM holds exactly when the due date parses, every present bound parses, and the due day is on the closed side of each bound |
| FilterEngine.TodayTomorrowSemantics | app/src/main/java/com/heodongun/ugoal/utils/FilterEngine.kt:30-37 | TODAY holds when the due date or planned date is today; TOMORROW holds when the due day is today's epoch day plus one |
| FilterEngine.RelativeRangeSemantics | app/src/main/java/com/heodongun/ugoal/utils/FilterEngine.kt:38-81 | THIS_WEEK is today..coming Sunday, NEXT_WEEK is the next Monday..Sunday, THIS_MONTH is today's calendar month, all in epoch days |
| FilterEngine.NextWeekWindow | app/src/main/java/com/heodongun/ugoal/utils/FilterEngine.kt:52-55 | next week is seven days from a Monday to a Sunday, starting right after this week ends |
| FilterEngine.CreateSystemLists | app/src/main/java/com/heodongun/ugoal/utils/FilterEngine.kt:159-240 | there are eight system lists, flagged as system, numbered 0..7 in order, with distinct ids |
| FilterEngine.SystemFiltersAccept | app/src/main/java/com/heodongun/ugoal/utils/FilterEngine.kt:159-240 | inbox and "all" accept every todo; the overdue, high-priority and completed lists accept exactly the overdue, HIGH and completed todos |
| FilterEngine.SystemListsSelect | app/src/main/java/com/heodongun/ugoal/utils/FilterEngine.kt:159-240 | each system list shows exactly the input todos its filter matches |
| FilterEngine.SearchTodos | app/src/main/java/com/heodongun/ugoal/utils/FilterEngine.kt:245-255 | a blank query returns the list unchanged; otherwise the result keeps input order and holds exactly the todos whose title, description, note or a tag contains the query, ignoring case, each with as many copies as the input has |
| FilterEngine.GetTodoCount | app/src/main/java/com/heodongun/ugoal/utils/FilterEngine.kt:260-262 | the count is the number of matching todos, at most the list size, and the list size when the filter is empty |
| FilterEngine.OverdueExample | app/src/main/java/com/heodongun/ugoal/utils/FilterEngine.kt:82-84 | an unfinished todo due 2020-01-01 is overdue on 2025-01-01; the same todo completed is not |
| FilterEngine.DueDateNullsLastExample | app/src/main/java/com/heodongun/ugoal/utils/FilterEngine.kt:149-151 | a todo without a due date sorts after one with a due date |
| FilterEngine.OnlyFirstKept | app/src/main/java/com/heodongun/ugoal/utils/FilterEngine.kt:15-145 | of two todos, a filter that only the first one matches returns exactly the first one, whatever the sort |
| FilterEngine.OutOfOrderPairSwapped | app/src/main/java/com/heodongun/ugoal/utils/FilterEngine.kt:147-157 | with every criterion off, two todos in the wrong order for the sort come back swapped |
| FilterEngine.PriorityExample | app/src/main/java/com/heodongun/ugoal/utils/FilterEngine.kt:16-18 | a HIGH-only filter drops a LOW todo and keeps a HIGH one |
| FilterEngine.SearchExample | app/src/main/java/com/heodongun/ugoal/utils/FilterEngine.kt:248-250 | "MILK" finds the title "Buy milk" |
| ById.Clean | app/src/main/java/com/heodongun/ugoal/data/repository/UgoalRepository.kt:54-63 | cleaning yields a subsequence with non-empty, pairwise distinct ids |
| ById.CleanKeepsFirst | app/src/main/java/com/heodongun/ugoal/data/repository/UgoalRepository.kt:54-63 | every non-empty id of the input survives cleaning, carried by the first element with that id |
| ById.CleanMeetsSpec | app/src/main/java/com/heodongun/ugoal/data/repository/UgoalRepository.kt:54-63 | cleaning any list meets the whole load promise `CleanOf`: unique non-empty ids, fetched order, no non-empty id lost, first element of each id kept, and the ids listed in the order they first occur in the fetched list, which leaves `distinctBy`'s result as the only list meeting it |
| ById.CleanOfUnique | app/src/main/java/com/heodongun/ugoal/data/repository/UgoalRepository.kt:54-63 | any list meeting `CleanOf` for a fetched list is the cleaned list, so the load promise fixes the result completely, order included |
| ById.CleanIdempotent | app/src/main/java/com/heodongun/ugoal/data/repository/UgoalRepository.kt:54-63 | cleaning an already cleaned list changes nothing |
| ById.AddIfAbsent | app/src/main/java/com/heodongun/ugoal/data/repository/UgoalRepository.kt:127-137 | after adding, the id is present; the old list is a prefix; at most one element is added; unique ids stay unique |
| ById.AddIfAbsentIdempotent | app/src/main/java/com/heodongun/ugoal/data/repository/UgoalRepository.kt:127-137 | adding twice is adding once; a present id leaves the list alone; an absent id appends |
| ById.ReplaceById | app/src/main/java/com/heodongun/ugoal/data/repository/UgoalRepository.kt:139-146 | positions and ids are kept; exactly the elements with the new element's id are replaced by it |
| ById.ReplaceByIdFacts | app/src/main/java/com/heodongun/ugoal/data/repository/UgoalRepository.kt:139-146 | replacing an absent id is a no-op, keeps ids unique, and is idempotent |
| ById.RemoveById | app/src/main/java/com/heodongun/ugoal/data/repository/UgoalRepository.kt:148-153 | the id is gone, the rest keep their order, and every element with another id survives |
| ById.RemoveByIdCount | app/src/main/java/com/heodongun/ugoal/data/repository/UgoalRepository.kt:148-153 | removal drops every copy of the id and keeps the multiplicity of everything else |
| ById.RemoveAfterAdd | app/src/main/java/com/heodongun/ugoal/data/repository/UgoalRepository.kt:127-153 | adding then removing an id is the same as removing it |
| Repository.LoadUserData | app/src/main/java/com/heodongun/ugoal/data/repository/UgoalRepository.kt:16-74 | the loaded document has unique non-empty ids in every collection; its todos, goals and daily goals are subsequences of what was fetched; user and tags are unchanged |
| Repository.LoadCleansEach | app/src/main/java/com/heodongun/ugoal/data/repository/UgoalRepository.kt:54-63 | in each of the eight collections the loaded list has unique non-empty ids, keeps the fetched order, loses no non-empty id, keeps for each id the first fetched element that has it, and lists the ids in the order they first occur in the fetched list |
| Repository.LoadIdempotent | app/src/main/java/com/heodongun/ugoal/data/repository/UgoalRepository.kt:54-63 | loading an already loaded document changes nothing |
| Repository.LoadKeepsFirstTodo | app/src/main/java/com/heodongun/ugoal/data/repository/UgoalRepository.kt:57 | every todo id survives loading, and each kept todo is the first with its id |
| Repository.AddBigGoal | app/src/main/java/com/heodongun/ugoal/data/repository/UgoalRepository.kt:76-86 | an existing id leaves the document unchanged; a new one is appended; a clean document stays clean |
| Repository.UpdateBigGoal | app/src/main/java/com/heodongun/ugoal/data/repository/UgoalRepository.kt:88-95 | each goal with the id becomes the new goal, all others stay; an unknown id changes nothing; cleanliness is kept |
| Repository.DeleteBigGoal | app/src/main/java/com/heodongun/ugoal/data/repository/UgoalRepository.kt:97-102 | no goal with the id remains; every other goal stays, in order |
| Repository.AddDailyGoal | app/src/main/java/com/heodongun/ugoal/data/repository/UgoalRepository.kt:104-114 | an existing id leaves the document unchanged; a new one is appended; a clean document stays clean |
| Repository.UpdateDailyGoal | app/src/main/java/com/heodongun/ugoal/data/repository/UgoalRepository.kt:116-125 | each daily goal with the id becomes the new one, all others stay, nothing else changes |
| Repository.AddTodo | app/src/main/java/com/heodongun/ugoal/data/repository/UgoalRepository.kt:127-137 | an existing id leaves the document unchanged; a new one is appended; a clean document stays clean |
| Repository.UpdateTodo | app/src/main/java/com/heodongun/ugoal/data/repository/UgoalRepository.kt:139-146 | each todo with the id becomes the new todo, all others stay; an unknown id changes nothing |
| Repository.DeleteTodo | app/src/main/java/com/heodongun/ugoal/data/repository/UgoalRepository.kt:148-153 | no todo with the id remains; every other todo stays, in order |
| Repository.DeleteAfterAddTodo | app/src/main/java/com/heodongun/ugoal/data/repository/UgoalRepository.kt:127-153 | adding a todo and deleting its id is the same as deleting the id |
| Repository.AddTodoIdempotent | app/src/main/java/com/heodongun/ugoal/data/repository/UgoalRepository.kt:127-137 | adding the same todo twice is adding it once |
| Repository.ToggleTodoComplete | app/src/main/java/com/heodongun/ugoal/data/repository/UgoalRepository.kt:155-162 | an unknown id fails. Otherwise every todo with the id becomes the first such todo with its completion flipped, stamped with `now` when it becomes complete and cleared otherwise; other todos stay |
| Repository.ToggleTwice | app/src/main/java/com/heodongun/ugoal/data/repository/UgoalRepository.kt:155-162 | with unique ids, toggling twice restores the todo up to its completion stamp, which is empty exactly when it was unfinished |
| Repository.GetTodosForDate | app/src/main/java/com/heodongun/ugoal/data/repository/UgoalRepository.kt:164-166 | the result keeps stored order and holds exactly the todos planned for the date, each with as many copies as the document has |
| Repository.GetDailyGoalForDate | app/src/main/java/com/heodongun/ugoal/data/repository/UgoalRepository.kt:168-170 | none when no daily goal has the date; otherwise the first stored goal with that date |
| Repository.AddSmartList | app/src/main/java/com/heodongun/ugoal/data/repository/UgoalRepository.kt:173-178 | the list is appended, with no duplicate check, and nothing else changes |
| Repository.UpdateSmartList | app/src/main/java/com/heodongun/ugoal/data/repository/UgoalRepository.kt:180-189 | lists with the id are replaced, all others stay |
| Repository.DeleteSmartList | app/src/main/java/com/heodongun/ugoal/data/repository/UgoalRepository.kt:191-196 | no list with the id remains; the others stay in order |
| Repository.AddHabit | app/src/main/java/com/heodongun/ugoal/data/repository/UgoalRepository.kt:199-204 | the habit is appended without a duplicate check |
| Repository.UpdateHabit | app/src/main/java/com/heodongun/ugoal/data/repository/UgoalRepository.kt:206-215 | habits with the id are replaced, all others stay |
| Repository.DeleteHabit | app/src/main/java/com/heodongun/ugoal/data/repository/UgoalRepository.kt:217-222 | no habit with the id remains; the others stay in order |
| Repository.AddCalendarEvent | app/src/main/java/com/heodongun/ugoal/data/repository/UgoalRepository.kt:261-266 | the event is appended without a duplicate check |
| Repository.UpdateCalendarEvent | app/src/main/java/com/heodongun/ugoal/data/repository/UgoalRepository.kt:268-277 | events with the id are replaced, all others stay |
| Repository.DeleteCalendarEvent | app/src/main/java/com/heodongun/ugoal/data/repository/UgoalRepository.kt:279-284 | no event with the id remains; the others stay in order |
| Repository.AddComment | app/src/main/java/com/heodongun/ugoal/data/repository/UgoalRepository.kt:287-292 | the comment is appended without a duplicate check |
| Repository.UpdateComment | app/src/main/java/com/heodongun/ugoal/data/repository/UgoalRepository.kt:294-303 | comments with the id are replaced, all others stay |
| Repository.DeleteComment | app/src/main/java/com/heodongun/ugoal/data/repository/UgoalRepository.kt:305-310 | no comment with the id remains; the others stay in order |
| Repository.GetCommentsForTodo | app/src/main/java/com/heodongun/ugoal/data/repository/UgoalRepository.kt:312-315 | the result is a reordering of the todo's comments, in non-decreasing timestamp order, and comments with equal timestamps keep their stored order |
| Repository.ShareList | app/src/main/java/com/heodongun/ugoal/data/repository/UgoalRepository.kt:318-323 | the shared list is appended without a duplicate check |
| Repository.UpdateSharedList | app/src/main/java/com/heodongun/ugoal/data/repository/UgoalRepository.kt:325-334 | shared lists with the id are replaced, all others stay |
| Repository.RemoveSharedList | app/src/main/java/com/heodongun/ugoal/data/repository/UgoalRepository.kt:336-341 | no shared list with the id remains; the others stay in order |
| Repository.StreakFrom | app/src/main/java/com/heodongun/ugoal/data/repository/UgoalRepository.kt:248-258 | counting back from a day, the result is the length of the unbroken run of days with a positive count |
| Repository.CalculateStreak | app/src/main/java/com/heodongun/ugoal/data/repository/UgoalRepository.kt:248-258 | the streak is the number of consecutive days, ending at the current day, with a positive count; the day before the run has none; the streak is bounded by the history size |
| Repository.StreakUnique | app/src/main/java/com/heodongun/ugoal/data/repository/UgoalRepository.kt:248-258 | any m that fits that description is the streak |
| Repository.CompleteHabitOn | app/src/main/java/com/heodongun/ugoal/data/repository/UgoalRepository.kt:227-241 | an unparseable date fails. Otherwise the day's count goes up by one, the streak is recomputed on the new history, and the longest streak becomes the maximum of old and new; other fields stay |
| Repository.CompletionStartsStreak | app/src/main/java/com/heodongun/ugoal/data/repository/UgoalRepository.kt:227-241 | completing a habit on a day gives a streak of at least one |
| Repository.CompleteHabit | app/src/main/java/com/heodongun/ugoal/data/repository/UgoalRepository.kt:224-246 | an unknown habit leaves the document alone; a known one with an unparseable date fails; otherwise exactly the habits with the id are completed |
| Repository.AddTag | app/src/main/java/com/heodongun/ugoal/data/repository/UgoalRepository.kt:344-351 | a known tag changes nothing; a new tag is appended; tags without duplicates stay without duplicates |
| Repository.AddTagIdempotent | app/src/main/java/com/heodongun/ugoal/data/repository/UgoalRepository.kt:344-351 | adding a tag twice is adding it once |
| Repository.RemoveTag | app/src/main/java/com/heodongun/ugoal/data/repository/UgoalRepository.kt:353-358 | the tag is gone; every other tag stays, in order, with as many copies as before |
| Repository.RemoveAfterAddTag | app/src/main/java/com/heodongun/ugoal/data/repository/UgoalRepository.kt:344-358 | adding a new tag and removing it restores the document |
| Repository.GetAllTags | app/src/main/java/com/heodongun/ugoal/data/repository/UgoalRepository.kt:360-362 | the result is a reordering of the tags, in non-decreasing text order |
| Text.Lower | app/src/main/java/com/heodongun/ugoal/utils/FilterEngine.kt:248-253 | lower-casing keeps the length and lowers each ASCII capital by 32 code points, leaving every other character alone |
| Text.ReplaceAll | app/src/main/java/com/heodongun/ugoal/utils/NaturalLanguageParser.kt:60 | replacing by the empty text never lengthens the text |
| Text.IndexOf | app/src/main/java/com/heodongun/ugoal/utils/NaturalLanguageParser.kt:60 | the search from k finds nothing exactly when the target occurs nowhere from k on; otherwise it finds an occurrence at or after k |
| Text.IndexOfIsFirst | app/src/main/java/com/heodongun/ugoal/utils/NaturalLanguageParser.kt:60 | no occurrence of the target starts between k and the index the search finds |
| Text.ReplaceAllFirst | app/src/main/java/com/heodongun/ugoal/utils/NaturalLanguageParser.kt:60 | when the target first occurs at i, the result is the text before i, then the replacement, then the rest after that occurrence with the target replaced in turn |
| Text.ReplaceAllAbsent | app/src/main/java/com/heodongun/ugoal/utils/NaturalLanguageParser.kt:60 | a text that does not contain the target comes back unchanged |
| Text.Trim | app/src/main/java/com/heodongun/ugoal/utils/NaturalLanguageParser.kt:60 | the trimmed text has no whitespace at either end, stands in the input with only whitespace around it, is no longer than the input, and is empty exactly when the input is blank |
| Text.TrimUnique | app/src/main/java/com/heodongun/ugoal/utils/NaturalLanguageParser.kt:60 | any text that stands in the input with only whitespace around it and has no whitespace at its ends is the trimmed text |
| Text.CollapseSpaces | app/src/main/java/com/heodongun/ugoal/utils/NaturalLanguageParser.kt:114 | collapsing never lengthens the text, leaves no two adjacent `\s` characters, turns a leading `\s` into a space, and leaves a text without `\s` unchanged |
| Text.CollapseRun | app/src/main/java/com/heodongun/ugoal/utils/NaturalLanguageParser.kt:114 | a maximal run of `\s` characters between two parts becomes exactly one space, with each part collapsed on its own |
| Text.TrimNoSpaceRun | app/src/main/java/com/heodongun/ugoal/utils/NaturalLanguageParser.kt:114 | trimming a text without whitespace runs creates none |
| NlParser.LastHit | app/src/main/java/com/heodongun/ugoal/utils/NaturalLanguageParser.kt:64-94 | the index of the last table keyword in the input, or none exactly when no keyword occurs |
| NlParser.FirstHit | app/src/main/java/com/heodongun/ugoal/utils/NaturalLanguageParser.kt:38-45 | the index of the first table keyword in the input, or none exactly when no keyword occurs |
| NlParser.TimeMatchAt | app/src/main/java/com/heodongun/ugoal/utils/NaturalLanguageParser.kt:10 | the greedy time match at a position has 1-2 hour digits, a separator and optionally two minute digits, and occurs in the input there |
| NlParser.FindTime | app/src/main/java/com/heodongun/ugoal/utils/NaturalLanguageParser.kt:55-56 | the first position where the time pattern matches, or none exactly when it matches nowhere |
| NlParser.FormatTime | app/src/main/java/com/heodongun/ugoal/utils/NaturalLanguageParser.kt:57-59 | the time prints as `HH:mm` with the matched hour and minute (0 when absent) as values |
| NlParser.DaysUntil | app/src/main/java/com/heodongun/ugoal/utils/NaturalLanguageParser.kt:77-81 | the distance to the named weekday is 1..7, is a full week when the day is today's weekday, lands on that weekday, and no earlier day does |
| NlParser.NextWeekday | app/src/main/java/com/heodongun/ugoal/utils/NaturalLanguageParser.kt:73-86 | the weekday date is the first day after today with that ISO weekday |
| NlParser.DateKeywordStep | app/src/main/java/com/heodongun/ugoal/utils/NaturalLanguageParser.kt:64-70 | the date-keyword loop changes only the title and due date, and never lengthens the title |
| NlParser.DateKeywordStepDate | app/src/main/java/com/heodongun/ugoal/utils/NaturalLanguageParser.kt:64-70 | after the loop, the due date is today plus the offset of the last keyword found, or unchanged when none is found |
| NlParser.WeekdayStep | app/src/main/java/com/heodongun/ugoal/utils/NaturalLanguageParser.kt:73-86 | the weekday loop changes only the title and due date, and never lengthens the title; a name found is cut together with every `다음` before a single trim (`WeekdayTitle`) |
| NlParser.WeekdayStepDate | app/src/main/java/com/heodongun/ugoal/utils/NaturalLanguageParser.kt:73-86 | after the loop, the due date is the next day on the weekday of the last name found, or unchanged when none is found |
| NlParser.PriorityStep | app/src/main/java/com/heodongun/ugoal/utils/NaturalLanguageParser.kt:89-94 | the priority loop changes only the title and priority, and never lengthens the title |
| NlParser.PriorityStepLevel | app/src/main/java/com/heodongun/ugoal/utils/NaturalLanguageParser.kt:89-94 | after the loop, the priority is that of the last keyword found, or unchanged when none is found |
| NlParser.PriorityOf | app/src/main/java/com/heodongun/ugoal/utils/NaturalLanguageParser.kt:38-45 | the intended priority is NONE exactly when no priority keyword occurs |
| NlParser.PriorityOfMeaning | app/src/main/java/com/heodongun/ugoal/utils/NaturalLanguageParser.kt:38-45 | intended reading: a high marker (`중요`, `긴급`, `급함`, `!!!`) gives HIGH, else `!!` gives MEDIUM, else `!` gives LOW |
| NlParser.TagsFrom | app/src/main/java/com/heodongun/ugoal/utils/NaturalLanguageParser.kt:97-102 | a text is a hashtag exactly when it is the tag word after some marker followed by a tag character; an input with no marker has no hashtags |
| NlParser.MarkPositionsComplete | app/src/main/java/com/heodongun/ugoal/utils/NaturalLanguageParser.kt:97-102 | the reference list of marked positions holds exactly the positions where the marker is followed by a tag character, in strictly increasing order |
| NlParser.TagsFromPositions | app/src/main/java/com/heodongun/ugoal/utils/NaturalLanguageParser.kt:97-102 | the n-th hashtag is the tag word after the n-th marked position, so there is one hashtag per match, repeats included, in input order |
| NlParser.StripTags | app/src/main/java/com/heodongun/ugoal/utils/NaturalLanguageParser.kt:101 | cutting the hashtags never lengthens the title |
| NlParser.TimeStage | app/src/main/java/com/heodongun/ugoal/utils/NaturalLanguageParser.kt:54-61 | without a time match nothing changes; with one, the due time is the formatted first match and only the title also changes |
| NlParser.TagStage | app/src/main/java/com/heodongun/ugoal/utils/NaturalLanguageParser.kt:96-102 | the tags become all the input's hashtags; only the title also changes, and it gets no longer |
| NlParser.MentionStage | app/src/main/java/com/heodongun/ugoal/utils/NaturalLanguageParser.kt:104-111 | without an `@` mention nothing changes; with one, the goal name is the first mention's word |
| NlParser.ParseWith | app/src/main/java/com/heodongun/ugoal/utils/NaturalLanguageParser.kt:47-124 | for any keyword tables, the parsed title is no longer than the input, is trimmed, and has no whitespace runs |
| NlParser.ParseAsWritten | app/src/main/java/com/heodongun/ugoal/utils/NaturalLanguageParser.kt:47-124 | the parse as written yields a trimmed title with no whitespace runs, no longer than the input |
| NlParser.DueDateOf | app/src/main/java/com/heodongun/ugoal/utils/NaturalLanguageParser.kt:63-86 | intended due date: none exactly when no weekday name and no date keyword occurs; when a weekday name occurs, the first table entry found gives the first day after today on that weekday, 1..7 days ahead; otherwise the first date keyword found gives today plus its offset |
| NlParser.Parse | app/src/main/java/com/heodongun/ugoal/utils/NaturalLanguageParser.kt:47-124 | the corrected parse agrees with the parse as written except that priority and due date are the intended ones |
| NlParser.ParseWithFields | app/src/main/java/com/heodongun/ugoal/utils/NaturalLanguageParser.kt:54-111 | for any keyword tables: due time none exactly when no time matches, else the formatted first match; tags are all hashtags; the goal name is none exactly when no mention exists, else the word after the first mention |
| NlParser.ParseWithDueDate | app/src/main/java/com/heodongun/ugoal/utils/NaturalLanguageParser.kt:63-86 | the last weekday name found decides the due date; without one, the last date keyword; without either, there is no due date |
| NlParser.ParseDueDate | app/src/main/java/com/heodongun/ugoal/utils/NaturalLanguageParser.kt:11-86 | the same due-date rule for the source's tables |
| NlParser.ParseWithPriority | app/src/main/java/com/heodongun/ugoal/utils/NaturalLanguageParser.kt:88-94 | the priority is that of the last keyword found, or NONE |
| NlParser.ParsePriorityAsWritten | app/src/main/java/com/heodongun/ugoal/utils/NaturalLanguageParser.kt:38-94 | the same priority rule for the source's table |
| NlParser.ExclamationIsLow | app/src/main/java/com/heodongun/ugoal/utils/NaturalLanguageParser.kt:38-94 | as written, any input containing `!` ends with LOW priority |
| NlParser.TripleExclamationAsWritten | app/src/main/java/com/heodongun/ugoal/utils/NaturalLanguageParser.kt:42-44 | `!!!` yields LOW as written but HIGH in the corrected parse |
| NlParser.TomorrowTakenAsSunday | app/src/main/java/com/heodongun/ugoal/utils/NaturalLanguageParser.kt:13-35 | as written, `내일` (tomorrow) sets the due date to the next Sunday, because the weekday name `일` occurs inside it |
| NlParser.FullWeekdayNameAsWritten | app/src/main/java/com/heodongun/ugoal/utils/NaturalLanguageParser.kt:21-35 | when a full weekday name is the first one in the input, the parse as written lands on the next Sunday while the corrected parse lands on the named day |
| NlParser.DateKeywordsLastWins | app/src/main/java/com/heodongun/ugoal/utils/NaturalLanguageParser.kt:63-70 | as written, with `오늘` and `모레` present, no later date keyword and no weekday name, the due date is two days ahead: the last date keyword found decides |
| NlParser.DateKeywordsFirstWins | app/src/main/java/com/heodongun/ugoal/utils/NaturalLanguageParser.kt:63-70 | with `오늘` present and no weekday name, the corrected due date is today: the first date keyword found decides |
| NlParser.DateKeywordLastAsWritten | app/src/main/java/com/heodongun/ugoal/utils/NaturalLanguageParser.kt:63-70 | `"오늘 모레"` is due in two days as written and today in the corrected parse |
| NlParser.ParseTimeDescription | app/src/main/java/com/heodongun/ugoal/utils/NaturalLanguageParser.kt:130-139 | each hour is returned exactly when its rule's words occur and no earlier rule's do: 9:00 for morning, 12:00 for lunch, 15:00 for afternoon with 3, 18:00 for evening, 21:00 for night; none exactly when no rule's words occur |
| CalendarView.YearMonthOf | app/src/main/java/com/heodongun/ugoal/viewmodel/CalendarViewModel.kt:15 | the month of a date has that date's year and month |
| CalendarView.NextMonthOf | app/src/main/java/com/heodongun/ugoal/viewmodel/CalendarViewModel.kt:77-82 | the next month is one later on the continuous month count |
| CalendarView.PrevMonthOf | app/src/main/java/com/heodongun/ugoal/viewmodel/CalendarViewModel.kt:70-75 | the previous month is one earlier on the continuous month count |
| CalendarView.MonthStepsInverse | app/src/main/java/com/heodongun/ugoal/viewmodel/CalendarViewModel.kt:70-82 | a step forward and a step back cancel, in both orders |
| CalendarView.AtDay | app/src/main/java/com/heodongun/ugoal/ui/screens/CalendarScreen.kt:252 | `atDay` gives the date with that month and day |
| CalendarView.CurrentWeek | app/src/main/java/com/heodongun/ugoal/viewmodel/CalendarViewModel.kt:148-153 | the current week runs from a Monday to the Sunday six days later, contains today, and starts Weekday-1 days before today |
| CalendarView.CurrentWeekOfWeekday | app/src/main/java/com/heodongun/ugoal/viewmodel/CalendarViewModel.kt:148-153 | every day from today to the coming Sunday has the same current week |
| CalendarView.InitialState | app/src/main/java/com/heodongun/ugoal/viewmodel/CalendarViewModel.kt:14-22 | the initial state shows today's month, the Monday-to-Sunday week of today, today selected, month view, not loading, no error |
| CalendarView.PreviousMonth | app/src/main/java/com/heodongun/ugoal/viewmodel/CalendarViewModel.kt:70-75 | only the displayed month changes, to the previous one |
| CalendarView.NextMonth | app/src/main/java/com/heodongun/ugoal/viewmodel/CalendarViewModel.kt:77-82 | only the displayed month changes, to the next one |
| CalendarView.PreviousWeek | app/src/main/java/com/heodongun/ugoal/viewmodel/CalendarViewModel.kt:84-91 | only the week changes; both ends move back seven days |
| CalendarView.NextWeek | app/src/main/java/com/heodongun/ugoal/viewmodel/CalendarViewModel.kt:93-100 | only the week changes; both ends move forward seven days |
| CalendarView.DaysRoundTrip | app/src/main/java/com/heodongun/ugoal/viewmodel/CalendarViewModel.kt:84-100 | moving a date forward and back by the same number of days returns it |
| CalendarView.WeekNavigationInverse | app/src/main/java/com/heodongun/ugoal/viewmodel/CalendarViewModel.kt:84-100 | next week after previous week, and the reverse, restore the state |
| CalendarView.MonthNavigationInverse | app/src/main/java/com/heodongun/ugoal/viewmodel/CalendarViewModel.kt:70-82 | next month after previous month, and the reverse, restore the state |
| CalendarView.WeekNavigationWeekday | app/src/main/java/com/heodongun/ugoal/viewmodel/CalendarViewModel.kt:84-100 | week navigation keeps the weekday of the week's first day |
| CalendarView.GoToToday | app/src/main/java/com/heodongun/ugoal/viewmodel/CalendarViewModel.kt:102-111 | month, week and selection jump to today, the week contains today, and nothing else changes |
| CalendarView.SelectDate | app/src/main/java/com/heodongun/ugoal/viewmodel/CalendarViewModel.kt:113-115 | only the selected date changes |
| CalendarView.SetViewType | app/src/main/java/com/heodongun/ugoal/viewmodel/CalendarViewModel.kt:117-119 | only the view type changes |
| CalendarView.Events | app/src/main/java/com/heodongun/ugoal/viewmodel/CalendarViewModel.kt:39-44 | events are a reordering of the dated todos, sorted by due date else planned date, with ties in stored order |
| CalendarView.EventsForDate | app/src/main/java/com/heodongun/ugoal/viewmodel/CalendarViewModel.kt:128-133 | the events of a date are, in order, exactly those planned or due on it, each with as many copies as the input has |
| CalendarView.EventDays | app/src/main/java/com/heodongun/ugoal/viewmodel/CalendarViewModel.kt:128-133 | for four-digit years, an event is on a date exactly when its planned or due date parses to that date |
| CalendarView.EventsForWeek | app/src/main/java/com/heodongun/ugoal/viewmodel/CalendarViewModel.kt:135-145 | the map has a key for exactly the dates from start to end, each mapped to its events; it is empty when end is before start |
| CalendarScreen.FirstWeekday | app/src/main/java/com/heodongun/ugoal/ui/screens/CalendarScreen.kt:219-221 | the weekday of the month's first day is 1..7 |
| CalendarScreen.MonthLength | app/src/main/java/com/heodongun/ugoal/ui/screens/CalendarScreen.kt:220 | a month has 28..31 days |
| CalendarScreen.Cell | app/src/main/java/com/heodongun/ugoal/ui/screens/CalendarScreen.kt:249-252 | a grid cell holds a date exactly when its day number is in 1..length, and that date is in the displayed month |
| CalendarScreen.MonthGrid | app/src/main/java/com/heodongun/ugoal/ui/screens/CalendarScreen.kt:244-268 | the grid has the formula's number of rows of seven cells each, and each cell is `Cell` |
| CalendarScreen.DayOfMonth | app/src/main/java/com/heodongun/ugoal/ui/screens/CalendarScreen.kt:252 | day d of a month is the first of the month plus d-1 days |
| CalendarScreen.ColumnOfDay | app/src/main/java/com/heodongun/ugoal/ui/screens/CalendarScreen.kt:249 | the column of a cell matches the weekday offset of its day number |
| CalendarScreen.CellWeekday | app/src/main/java/com/heodongun/ugoal/ui/screens/CalendarScreen.kt:230-252 | the date in column c falls on ISO weekday c+1, matching the Monday-first header |
| CalendarScreen.EveryDayPlaced | app/src/main/java/com/heodongun/ugoal/ui/screens/CalendarScreen.kt:244-252 | every day of the month appears in the grid, at a row and column computed from its number |
| CalendarScreen.CellsDistinct | app/src/main/java/com/heodongun/ugoal/ui/screens/CalendarScreen.kt:249-252 | no date appears in two cells |
| CalendarScreen.BlankLastRow | app/src/main/java/com/heodongun/ugoal/ui/screens/CalendarScreen.kt:244 | the row formula adds a wholly blank last row exactly when the month ends on a Sunday; every earlier row holds a date |
| CalendarScreen.Dots | app/src/main/java/com/heodongun/ugoal/ui/screens/CalendarScreen.kt:336 | the dot count is the event count capped at three |
| CalendarScreen.DayCell | app/src/main/java/com/heodongun/ugoal/ui/screens/CalendarScreen.kt:253-265 | a cell's event count is the number of the day's events; it is flagged high exactly when one of them is HIGH; it shows dots exactly when it has events |
| CalendarScreen.WeekDates | app/src/main/java/com/heodongun/ugoal/ui/screens/CalendarScreen.kt:361-367 | the strip lists the days from start to end, one per epoch day, in order, and nothing else |
| CalendarScreen.CurrentWeekStrip | app/src/main/java/com/heodongun/ugoal/ui/screens/CalendarScreen.kt:355-367 | the current week's strip is Monday..Sunday, ends at the week's end, and contains today |
| CalendarScreen.NextViewType | app/src/main/java/com/heodongun/ugoal/ui/screens/CalendarScreen.kt:51-58 | the view button always switches to a different view |
| CalendarScreen.ViewCycle | app/src/main/java/com/heodongun/ugoal/ui/screens/CalendarScreen.kt:52-57 | four presses visit all four views and return to the start |
| CalendarScreen.OnPrevious | app/src/main/java/com/heodongun/ugoal/ui/screens/CalendarScreen.kt:94-100 | the back arrow moves one month in month view, one week in week view, otherwise one day back in the selection; nothing else changes |
| CalendarScreen.OnNext | app/src/main/java/com/heodongun/ugoal/ui/screens/CalendarScreen.kt:101-107 | the forward arrow moves one month, one week or one day forward in the same way |
| CalendarScreen.ArrowsInverse | app/src/main/java/com/heodongun/ugoal/ui/screens/CalendarScreen.kt:94-107 | forward after back, and back after forward, restore the state in every view |
| Home.TodayTodos | app/src/main/java/com/heodongun/ugoal/viewmodel/HomeViewModel.kt:44-51 | today's list is sorted by creation time, has unique ids, and holds only todos with an id that are planned today or undated. Each is the first of its id, and every such id is shown. Todos created at the same time keep their order in the deduplicated list |
| Home.TodayGoal | app/src/main/java/com/heodongun/ugoal/viewmodel/HomeViewModel.kt:40-43 | the goal is the first cleaned goal dated today, a stored goal with an id that is the first of its id; none exactly when no cleaned goal is dated today |
| Home.Refresh | app/src/main/java/com/heodongun/ugoal/viewmodel/HomeViewModel.kt:38-55 | a document change recomputes goal and list, ends loading and clears the error |
| Home.NewTodo | app/src/main/java/com/heodongun/ugoal/viewmodel/HomeViewModel.kt:100-108 | the new todo carries id, title and goal, is planned for the given date or else today, is stamped with `now`, and is default otherwise |
| Home.AddTodo | app/src/main/java/com/heodongun/ugoal/viewmodel/HomeViewModel.kt:98-112 | the new todo is appended to the document unless its id is taken |
| Home.AddedTodoShownToday | app/src/main/java/com/heodongun/ugoal/viewmodel/HomeViewModel.kt:98-112 | a todo added without a date under a fresh id appears on today's list |
| Home.AddDailyGoal | app/src/main/java/com/heodongun/ugoal/viewmodel/HomeViewModel.kt:69-84 | an unfinished goal dated today is appended to the document unless its id is taken |
| Home.AddedDailyGoalShown | app/src/main/java/com/heodongun/ugoal/viewmodel/HomeViewModel.kt:69-84 | after adding a daily goal under a fresh id, the home screen has a goal for today |
| Home.ToggleDailyGoal | app/src/main/java/com/heodongun/ugoal/viewmodel/HomeViewModel.kt:86-96 | without a goal nothing happens; otherwise the goal's completion flips on screen and in every document goal with its id |
| Home.ToggleDailyGoalTwice | app/src/main/java/com/heodongun/ugoal/viewmodel/HomeViewModel.kt:86-96 | toggling twice restores screen and document when the shown goal is the stored one |
| Home.UpdateTodo | app/src/main/java/com/heodongun/ugoal/viewmodel/HomeViewModel.kt:120-136 | the list becomes the replaced list re-sorted by creation time; unique ids stay unique; a shown id now shows the new todo; todos created at the same time keep their order in the replaced list |
| Home.DeleteTodo | app/src/main/java/com/heodongun/ugoal/viewmodel/HomeViewModel.kt:138-147 | the id leaves the list; the rest stay in order |
| Home.DeleteKeepsSorted | app/src/main/java/com/heodongun/ugoal/viewmodel/HomeViewModel.kt:143 | deleting keeps a sorted list sorted |
| Goals.GoalTodos | app/src/main/java/com/heodongun/ugoal/viewmodel/GoalsViewModel.kt:84-86 | a goal's todos are those pointing at it with an id, in stored order, with unique ids; every such id is shown, each by the first of the goal's todos with that id, and the ids come in the order they first occur among the goal's todos |
| Goals.ShownFacts | app/src/main/java/com/heodongun/ugoal/viewmodel/GoalsViewModel.kt:63-88 | the cleaned goals with their todos attached have unique ids, and every stored goal id is among them |
| Goals.GoalList | app/src/main/java/com/heodongun/ugoal/viewmodel/GoalsViewModel.kt:63-109 | the list is sorted by creation time, has unique ids, one entry per cleaned goal with its todos attached, and covers every stored goal id; goals created at the same time keep the stored order |
| Goals.Refresh | app/src/main/java/com/heodongun/ugoal/viewmodel/GoalsViewModel.kt:107-112 | a document change recomputes the list, ends loading and clears the error |
| Goals.AddGoal | app/src/main/java/com/heodongun/ugoal/viewmodel/GoalsViewModel.kt:131-149 | a goal without todos, created at `now`, is appended unless its id is taken |
| Goals.AddTodoToGoal | app/src/main/java/com/heodongun/ugoal/viewmodel/GoalsViewModel.kt:180-192 | an undated todo pointing at the goal is appended unless its id is taken |
| Goals.AddedTodoShownUnderGoal | app/src/main/java/com/heodongun/ugoal/viewmodel/GoalsViewModel.kt:180-192 | the added todo shows under its goal and leaves every other goal's progress unchanged |
| Goals.UpdateGoal | app/src/main/java/com/heodongun/ugoal/viewmodel/GoalsViewModel.kt:151-167 | the list becomes the replaced list re-sorted by creation time, same length; unique ids stay unique; a shown id now shows the new goal; goals created at the same time keep their order in the replaced list |
| Goals.DeleteGoal | app/src/main/java/com/heodongun/ugoal/viewmodel/GoalsViewModel.kt:169-178 | the id leaves the list; the rest stay in order |
| Goals.DeleteGoalKeepsOrder | app/src/main/java/com/heodongun/ugoal/viewmodel/GoalsViewModel.kt:174 | deleting keeps the list sorted with unique ids |
| Goals.ProgressIgnoresOtherGoals | app/src/main/java/com/heodongun/ugoal/viewmodel/GoalsViewModel.kt:83-88 | a todo of another goal never changes a goal's progress |

## Left out

- Firestore/MongoDB reads and writes, coroutines, `StateFlow` plumbing and logging. The repository's write results and the view models' `onFailure` error paths depend only on I/O, so the model assumes every write succeeds.
- Repository.LoadUserData: the fetch failure path (`Result.failure` from the client) is I/O and is not modelled.
- The clock and UUIDs are parameters (`today`, `now`, `id`), not read. The parser reads `LocalDate.now()` anew in each date loop; the model uses one `today` for the whole parse, so a parse that runs across midnight is not modelled.
- `String.lowercase()` is modelled on ASCII letters only; other characters are left unchanged.
- Repository.GetAllTags: text order (`Seqs.TextLe`, also used for FilterEngine's TITLE sort) compares Unicode scalar values, because a Dafny `char` is one scalar value. Kotlin's `compareTo` compares UTF-16 code units, so a character above U+FFFF (a surrogate pair, starting at 0xD800) sorts before U+E000–U+FFFF on the JVM and after them here. Texts without such characters order the same way.
- Text.IsWhitespace: Kotlin's `Char.isWhitespace` is written out as a fixed list of code points (TAB..CR, FS..US and the Unicode space, line and paragraph separators, without U+180E). A JVM on an older Unicode version may differ on such characters. The regex `\s` is Java's ASCII class `[ \t\n\x0B\f\r]`.
- `Int`/`Long` overflow: `count * 100` in `progress`, habit counters and timestamps are unbounded integers here.
- Dates.Parse accepts only the unsigned four-digit `yyyy-MM-dd` form; signed or five-digit years, which `LocalDate.parse` also reads, are treated as unparseable.
- `completionProgress` (floating point), pomodoro sessions, statistics and user settings are not part of this model.
- `CalendarEvent`, `Comment` and `SharedList` keep only the fields an operation reads: id, todo id and timestamp.
- `updateMonthYear` (the `yyyy년 M월` title text), the agenda view's grouping and all drawing, colours and click wiring are presentation only.
- The `isToday` and `isSelected` flags of a day cell are plain equality tests and are not modelled.
- The view models' `toggleTodoComplete` and `toggleGoalTodoComplete` only forward to Repository.ToggleTodoComplete, which is modelled.
- HomeViewModel's and GoalsViewModel's repository calls always complete, so the screen-side updates in Home.ToggleDailyGoal, Home.UpdateTodo, Home.DeleteTodo, Goals.UpdateGoal and Goals.DeleteGoal are applied unconditionally.
- Repository.CompleteHabitOn: `LocalDate.parse` throwing on a bad date becomes a `Failure` result instead of an exception.
- NlParser.TomorrowTakenAsSunday: `내일` (tomorrow) contains the weekday name `일`, so even the corrected parse, which lets a weekday name override a date keyword as the source does, lands on Sunday. The source gives no hint of which reading the authors wanted for names that overlap across the two tables, so this is documented and not corrected.
- NlParser.Parse: the corrected parse keeps the title as written, with every keyword found cut from it; only the chosen priority and due date are corrected.

## Findings

| source | as written | input that shows it | evidently intended | confidence | as-written member | corrected member |
|---|---|---|---|---|---|---|
| app/src/main/java/com/heodongun/ugoal/utils/NaturalLanguageParser.kt:38-45 | the priority loop visits every keyword and keeps the last one found; `!` is last and occurs inside `!!` and `!!!`, so any exclamation mark yields LOW | `"보고서 제출 !!!"` gives LOW | the strongest marker present decides: `!!!` gives HIGH and `!!` gives MEDIUM | not executed | NlParser.TripleExclamationAsWritten | NlParser.PriorityOfMeaning |
| app/src/main/java/com/heodongun/ugoal/utils/NaturalLanguageParser.kt:72-86 | `return@forEach` only ends the current iteration, so every weekday entry is tried and the last found wins; every full name `X요일` contains `일`, the last entry | `"월요일 회의"` is due the next Sunday | the first entry found decides, as the comment at line 68 says, so `월요일` means Monday | not executed | NlParser.FullWeekdayNameAsWritten | NlParser.DueDateOf |
| app/src/main/java/com/heodongun/ugoal/utils/NaturalLanguageParser.kt:63-70 | `return@forEach` only ends the current iteration, so every date keyword is tried and the last one found sets the due date | `"오늘 모레"` is due in two days | the first keyword found decides, as the comment on line 68 says ("use only the first match"), so `"오늘 모레"` is due today | not executed | NlParser.DateKeywordLastAsWritten | NlParser.DueDateOf |
