/**
 * The state of the `App` component of src/App.tsx: the two state cells
 * `todos` and `globalStats`, and the handlers that replace them. Each handler
 * assigns the result of the pure transition it uses.
 */
module FocusApp {
  import opened Types
  import opened TodoList
  import opened Statistics
  import opened TodoForm
  import opened TimeFormat

  class App {
    var todos: seq<Todo>
    var globalStats: GlobalStats

    /** Ids are unique, the daily entries add up to the totals, and every day
        is keyed by its date. */
    ghost predicate Valid()
      reads this
    {
      UniqueIds(todos) && Consistent(globalStats) && DateKeyed(globalStats)
    }

    /** The tasks' own counters never exceed the global totals: sessions are
        only ever added to both, and removal only drops task counters. */
    ghost predicate Accounted()
      reads this
    {
      SumCounts(todos) <= globalStats.totalCount && SumDurations(todos) <= globalStats.totalDuration
    }

    /** Every task name passed the save button's guard. */
    ghost predicate NamesSavable()
      reads this
    {
      forall i :: 0 <= i < |todos| ==> CanSave(todos[i].name)
    }

    /** The start state when storage holds nothing: no tasks, zero statistics. */
    constructor ()
      ensures Valid() && Accounted() && NamesSavable()
      ensures todos == [] && globalStats == DefaultStats()
    {
      todos := [];
      globalStats := DefaultStats();
    }

    /** `handleAddTodo` with `id` standing for the random id, which must be new. */
    method AddTodo(draft: TodoDraft, id: string)
      requires Valid() && id !in Ids(todos)
      modifies this
      ensures Valid()
      ensures todos == TodoList.Add(old(todos), draft, id) && globalStats == old(globalStats)
      ensures Ids(todos) == old(Ids(todos)) + {id}
      ensures old(Accounted()) ==> Accounted()
      ensures old(NamesSavable()) && CanSave(draft.name) ==> NamesSavable()
    {
      AddKeepsUnique(todos, draft, id);
      AddSums(todos, draft, id);
      todos := TodoList.Add(todos, draft, id);
    }

    /** `handleUpdateTodo`: the records with the updated record's id become it. */
    method UpdateTodo(updated: Todo)
      requires Valid()
      modifies this
      ensures Valid()
      ensures todos == Update(old(todos), updated) && globalStats == old(globalStats)
      ensures Ids(todos) == old(Ids(todos))
      ensures updated.id !in old(Ids(todos)) ==> todos == old(todos)
    {
      UpdateKeepsIds(todos, updated);
      if updated.id !in Ids(todos) {
        UpdateAbsent(todos, updated);
      }
      todos := Update(todos, updated);
    }

    /** `handleDeleteTodo`. */
    method DeleteTodo(id: string)
      requires Valid()
      modifies this
      ensures Valid()
      ensures todos == Remove(old(todos), id) && globalStats == old(globalStats)
      ensures id !in Ids(todos)
      ensures id !in old(Ids(todos)) ==> todos == old(todos)
      ensures old(Accounted()) ==> Accounted()
      ensures old(NamesSavable()) ==> NamesSavable()
    {
      var remaining := Remove(todos, id);
      RemoveKeepsUnique(todos, id);
      RemoveSums(todos, id);
      RemoveIdempotent(todos, id);
      if id !in Ids(todos) {
        RemoveAbsent(todos, id);
      }
      todos := remaining;
    }

    /** `handleArchiveTodo`: the same removal as `handleDeleteTodo`. */
    method ArchiveTodo(id: string)
      requires Valid()
      modifies this
      ensures Valid()
      ensures todos == Remove(old(todos), id) && globalStats == old(globalStats)
      ensures id !in Ids(todos)
      ensures old(Accounted()) ==> Accounted()
      ensures old(NamesSavable()) ==> NamesSavable()
    {
      DeleteTodo(id);
    }

    /** `handleSaveSession` with `today` standing for the current date key. The
        statistics change even when no task has the id. */
    method SaveSession(id: string, today: string, duration: nat)
      requires Valid() && IsDateKey(today)
      modifies this
      ensures Valid()
      ensures todos == RecordTaskSession(old(todos), id, duration)
      ensures globalStats == RecordSession(old(globalStats), today, duration)
      ensures SumCounts(todos) == old(SumCounts(todos)) + (if id in old(Ids(todos)) then 1 else 0)
      ensures old(Accounted()) ==> Accounted()
      ensures old(NamesSavable()) ==> NamesSavable()
    {
      SessionKeepsIds(todos, id, duration);
      SessionSums(todos, id, duration);
      RecordSessionConsistent(globalStats, today, duration);
      todos := RecordTaskSession(todos, id, duration);
      globalStats := RecordSession(globalStats, today, duration);
    }

    /** The form's `onSave` (src/App.tsx:311-317): on the edit page with a
        selected task, merge the form into it; otherwise add a new task. The
        button is enabled only for a savable name; `freshId` stands for the id
        `handleAddTodo` would draw. */
    method SubmitForm(page: Page, selectedId: Option<string>, data: FormData, freshId: string)
      requires Valid() && CanSave(data.name) && freshId !in Ids(todos)
      modifies this
      ensures Valid() && globalStats == old(globalStats)
      ensures var selected := if selectedId.Some? then Find(old(todos), selectedId.value) else None;
        if page == Edit && selected.Some?
        then todos == Update(old(todos), MergeEdit(selected.value, data))
        else todos == TodoList.Add(old(todos), DraftOf(data), freshId)
      ensures old(Accounted()) ==> Accounted()
      ensures old(NamesSavable()) ==> NamesSavable()
    {
      var selected := if selectedId.Some? then Find(todos, selectedId.value) else None;
      if page == Edit && selected.Some? {
        var merged := MergeEdit(selected.value, data);
        EditKeepsSums(todos, selectedId.value, data);
        UpdateTodo(merged);
      } else {
        AddTodo(DraftOf(data), freshId);
      }
    }
  }

  /** The add form of the scenario: name typed, "学习" picked; it can be saved. */
  lemma ScenarioForm()
    ensures PickCategory(InitialForm(None).(name := "复习高数"), 2) == FormData("复习高数", "学习", "#fce35a")
    ensures CanSave("复习高数")
  {
    assert !IsTrimmed("复习高数"[0]);
  }

  /** Saving the form on the add page appends the new task with zero counters. */
  lemma ScenarioAdd()
    ensures TodoList.Add([], DraftOf(FormData("复习高数", "学习", "#fce35a")), "t1")
      == [Todo("t1", "复习高数", "学习", "#fce35a", 0, 0, None)]
  {
  }

  /** A 0-second session on the new task. */
  lemma ScenarioTaskSession()
    ensures RecordTaskSession([Todo("t1", "复习高数", "学习", "#fce35a", 0, 0, None)], "t1", 0)
      == [Todo("t1", "复习高数", "学习", "#fce35a", 1, 0, None)]
  {
    var r := RecordTaskSession([Todo("t1", "复习高数", "学习", "#fce35a", 0, 0, None)], "t1", 0);
    assert |r| == 1 && r[0].totalCount == 1;
  }

  /** A 0-second session on statistics that hold nothing yet. */
  lemma ScenarioStatsSession(stats: GlobalStats, today: string)
    requires stats.totalCount == 0 && stats.totalDuration == 0 && stats.dailyStats == map[]
    requires IsDateKey(today)
    ensures RecordSession(stats, today, 0) == GlobalStats(1, 0, map[today := DayStat(1, 0)])
  {
    assert DayEntry(stats.dailyStats, today) == DayStat(0, 0);
    assert stats.dailyStats[today := DayStat(1, 0)] == map[today := DayStat(1, 0)];
  }

  /** The add-then-time scenario: on a fresh app, type "复习高数" into the add
      form, pick "学习" and save; then save one focus session of 0 seconds and
      read the statistics screen's duration. */
  method AddAndTimeScenario(today: string) returns (app: App, shown: string)
    requires IsDateKey(today)
    ensures app.todos == [Todo("t1", "复习高数", "学习", "#fce35a", 1, 0, None)]
    ensures app.globalStats == GlobalStats(1, 0, map[today := DayStat(1, 0)])
    ensures shown == "0分钟"
  {
    app := new App();
    ScenarioForm();
    var data := PickCategory(InitialForm(None).(name := "复习高数"), 2);
    app.SubmitForm(Page.Add, None, data, "t1");
    ScenarioAdd();
    ScenarioTaskSession();
    ScenarioStatsSession(app.globalStats, today);
    app.SaveSession("t1", today, 0);
    FormatDurationUnderMinute(0);
    shown := FormatDuration(app.globalStats.totalDuration);
  }
}
