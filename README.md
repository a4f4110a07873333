# FocusTodo domain state in Dafny

A model of the state logic of FocusTodo, a single-page focus-timer to-do app.
Users create tasks, time focus sessions against a task, and look at
aggregated statistics. The model covers the following:

- the record shapes `Todo` and `GlobalStats`, the eight-entry `CATEGORIES`
  name→colour table and the `Page` enumeration (`types.dfy`, module `Types`);
- the two text helpers: `formatTime`, the running timer as `MM:SS`, and
  `formatDuration`, the statistics as `H小时M分钟` or `M分钟`. Each comes with
  a parser that reads its output back (`time_format.dfy`, module `TimeFormat`);
- the task-list transitions as pure functions on `seq<Todo>`: add, update,
  removal (delete and archive share it), the task half of recording a session,
  and the `find` behind the selected task (`todo_list.dfy`, module `TodoList`);
- the global statistics: the zero state, the stats half of recording a
  session, and the today lookup and day count of the statistics screen. This
  includes the invariant that the daily entries add up to the totals
  (`statistics.dfy`, module `Statistics`);
- the add/edit form: the JavaScript `trim` guard on the save button, the
  form's initial values with their `||` fallbacks, picking a category, and the
  `{ ...selectedTodo, ...data }` merge (`todo_form.dfy`, module `TodoForm`);
- the `App` component's two state cells, `todos` and `globalStats`, as a class
  whose methods assign the result of the pure transitions (`focus_app.dfy`,
  module `FocusApp`).

Inputs that come from the browser are parameters:
- the random id of a new task (with the precondition that it is not in use);
- the date key `today`. The source takes it from `new Date().toISOString().split('T')[0]`
  (src/App.tsx:116), so it is always a `YYYY-MM-DD` string of the UTC date. The model
  requires that shape of `today` (`Statistics.IsDateKey`), and `App.Valid` keeps every
  key of `dailyStats` in it.

Behaviour of the code that the model reproduces as written:
- Recording a session updates the global totals and today's entry even when no
  task has the given id, because src/App.tsx:131-145 never tests whether the id
  matched. `App.SaveSession` and `Statistics.RecordSession` do the same.
- Daily keys are UTC dates (`toISOString`, src/App.tsx:116), not local dates.
- The form's save path passes only `{ name, category, color }` to
  `handleAddTodo`. A task created there therefore has no `wallpaperIndex` at
  all, not a default. `wallpaperIndex` is an `Option<int>`, and `DraftOf`
  yields `None`.
- `handleUpdateTodo` replaces whole records. Only the edit path keeps `id`,
  the counters and the wallpaper, because of the merge. `App.UpdateTodo` with
  an arbitrary record can therefore break `Accounted`; `App.SubmitForm` keeps it.
- On the edit page with no selected task, the form's save adds a new task
  (src/App.tsx:312-316). `App.SubmitForm` models that branch.
- Archive is the same removal as delete (src/App.tsx:105-113).

## Model

| member | source | states |
|---|---|---|
| Types.ColorOf | src/types.ts:19-28 | the lookup finds nothing exactly when no category has the name; otherwise the colour belongs to a category with that name |
| Types.ColorOfMember | src/types.ts:19-28 | in a table with distinct names, looking up the name of entry i gives the colour of entry i |
| Types.CategoriesWellFormed | src/types.ts:19-28 | the table has exactly 8 entries, the names are pairwise distinct, and every colour is a 7-character `#rrggbb` string |
| Types.CategoryColorLookup | src/types.ts:19-28 | looking up a category's name in `CATEGORIES` gives that category's own colour |
| Types.PagesEnumerated | src/types.ts:37 | `Page` has exactly seven distinct screens, and every page value is one of them |
| TimeFormat.PadTwo | src/App.tsx:41 | `padStart(2, '0')`: the result has length 2, or the input's length when that is already 2 or more; the input is its suffix and only `0`s precede it |
| TimeFormat.Decimal | src/App.tsx:41 | the decimal text is non-empty and all digits; it has 1 digit iff n < 10, 2 digits iff 10 <= n < 100, and no leading zero |
| TimeFormat.DecimalRoundTrip | src/App.tsx:41 | parsing the decimal text of n gives n back |
| TimeFormat.PadTwoDecimal | src/App.tsx:41 | padding to two digits gives length 2 below 100 and never truncates; the padded text still parses to n |
| TimeFormat.FormatTime | src/App.tsx:38-42 | the timer text is at least 5 characters with `:` three from the end, and exactly 5 below 6000 seconds; FormatTimeShape and FormatTimeRoundTrip state the rest |
| TimeFormat.FormatTimeShape | src/App.tsx:38-42 | the timer text is digits, ':' and then exactly two digits; below 6000 seconds it is 5 characters with ':' at index 2 |
| TimeFormat.FormatTimeRoundTrip | src/App.tsx:38-42 | reading `MM:SS` back gives mins*60 + secs with secs < 60, which equals the input seconds |
| TimeFormat.FormatTimeInjective | src/App.tsx:38-42 | two different second counts never show the same timer text |
| TimeFormat.FormatDuration | src/App.tsx:44-51 | the duration text starts with a digit and ends in `分钟`; FormatDurationRoundTrip and FormatDurationHours state the rest |
| TimeFormat.FormatDurationRoundTrip | src/App.tsx:44-51 | reading the duration text back gives seconds/60, in the form `M分钟`, or `H小时M分钟` with H > 0 and M < 60 |
| TimeFormat.FormatDurationHours | src/App.tsx:44-51 | the hours part appears iff hours = seconds/3600 is nonzero |
| TimeFormat.FormatDurationDropsSeconds | src/App.tsx:44-51 | two second counts with the same whole minutes show the same duration text, so seconds below a whole minute never change it |
| TimeFormat.FormatDurationUnderMinute | src/App.tsx:44-51 | less than a minute shows as `0分钟` |
| Statistics.DayEntry | src/App.tsx:620-621 | a recorded day's entry, or `{0, 0}` for a day with no entry |
| Statistics.RecordSession | src/App.tsx:116-145 | for a `YYYY-MM-DD` key `today`: totals +1 and +duration; today's entry becomes the old entry (or `{0,0}`) plus `{1, duration}`; the key set gains only today; every other day is unchanged; date-keyed statistics stay date-keyed |
| Statistics.DefaultStats | src/App.tsx:62-66 | the zero stats `{0, 0, {}}`: their daily entries add up to the totals, every day shows `{0, 0}`, and the statistics screen counts one day |
| Statistics.TotalSplit | src/types.ts:16 | any one day's entry can be split off the sum of all entries, whichever day the sum visits first |
| Statistics.TotalUpdate | src/types.ts:16 | replacing one day's entry changes the sum of all entries by the new entry minus the old one |
| Statistics.RecordSessionConsistent | src/App.tsx:131-145 | if the daily counts and durations sum to the totals before a session, they still do after it |
| Statistics.DayWithinTotals | src/App.tsx:620-621 | under the sum invariant, the today entry the statistics screen shows never exceeds the totals |
| Statistics.DaysCount | src/App.tsx:623 | the day count is the number of recorded days, or 1 when there are none, so it is never 0 |
| Statistics.SessionShowsToday | src/App.tsx:131-145 | after a session today's entry shows at least one session and its duration; the day count grows by one exactly when today was new |
| TodoList.Add | src/App.tsx:89-96 | the list grows by one with the old list as prefix; the new last record has the draft's name, category, colour and wallpaper, the given id, and zero counters |
| TodoList.AddKeepsUnique | src/App.tsx:89-96 | adding with an unused id keeps ids unique and adds exactly that id |
| TodoList.AddSums | src/App.tsx:89-96 | adding leaves the sums of task counts and durations unchanged |
| TodoList.AddThenRemove | src/App.tsx:89-113 | deleting a freshly added id gives back the list before the add |
| TodoList.Update | src/App.tsx:100-101 | same length and ids position by position; each record with the updated id becomes the updated record, and every other record is unchanged |
| TodoList.UpdateAbsent | src/App.tsx:100-101 | updating an id that is not in the list changes nothing |
| TodoList.UpdateIdempotent | src/App.tsx:100-101 | updating twice with the same record equals updating once |
| TodoList.UpdateKeepsIds | src/App.tsx:100-101 | the set of ids is unchanged, and unique ids stay unique |
| TodoList.UpdateSameCounters | src/App.tsx:100-101 | if the replaced records have the new record's counters, the count and duration sums are unchanged |
| TodoList.Remove | src/App.tsx:105-113 | a record survives iff it was in the list and has another id; the list never grows |
| TodoList.RemoveAbsent | src/App.tsx:105-113 | removing an id that is not present is a no-op |
| TodoList.RemoveConcat | src/App.tsx:105-113 | removal distributes over concatenation, so the survivors keep their order |
| TodoList.RemoveUnique | src/App.tsx:105-113 | with unique ids, removing the id at position i yields the list without exactly that element |
| TodoList.RemoveIdempotent | src/App.tsx:105-113 | the id is gone afterwards, and removing it again changes nothing |
| TodoList.RemoveKeepsUnique | src/App.tsx:105-113 | removal keeps ids unique |
| TodoList.RemoveSums | src/App.tsx:105-113 | removal never increases the sums of task counts or durations |
| TodoList.RecordTaskSession | src/App.tsx:119-128 | same length; a record with the id gets count+1 and duration+d and keeps every other field; all other records are unchanged |
| TodoList.SessionKeepsIds | src/App.tsx:119-128 | the ids are unchanged position by position, so unique ids stay unique |
| TodoList.SessionSums | src/App.tsx:119-128 | with unique ids, the count sum grows by 1 and the duration sum by d when the id is present, and by nothing when it is absent |
| TodoList.FindIndex | src/App.tsx:83-86 | finds nothing iff no record has the id; otherwise finds the first position with that id |
| TodoList.Find | src/App.tsx:83-86 | the found record is a list member with the sought id, and there is none iff the id is absent |
| TodoList.FindUnique | src/App.tsx:83-86 | with unique ids, the record found by id is the one at that position |
| TodoForm.Trim | src/App.tsx:495 | `trim` gives a slice `s[i..j]` with only whitespace before `i` and after `j`; it is empty iff every character is whitespace, and otherwise starts and ends with a kept character |
| TodoForm.CanSave | src/App.tsx:495 | the save button is enabled iff the name holds a character that `trim` does not strip |
| TodoForm.InitialForm | src/App.tsx:435-437 | a new form starts empty on the first category; an edit form starts from the task's fields, falling back to the first category when the category or colour is empty |
| TodoForm.NewFormBlocked | src/App.tsx:435-495 | a fresh add form cannot be saved |
| TodoForm.PickCategory | src/App.tsx:458 | picking category i sets that category's name, and the colour is the one the table gives for that name |
| TodoForm.MergeEdit | src/App.tsx:311-313 | the merged record takes name, category and colour from the form and keeps id, counters and wallpaper |
| TodoForm.UnchangedEditIsIdentity | src/App.tsx:311-313 | saving an edit form left as opened gives back the same task |
| TodoForm.DraftOf | src/App.tsx:315 | the draft passed to add carries the form's three fields and no wallpaper index |
| TodoForm.EditKeepsSums | src/App.tsx:311-313 | with unique ids, saving an edit leaves the sums of task counts and durations unchanged |
| FocusApp.App.constructor | src/App.tsx:55-66 | starts with no tasks and the zero stats, satisfying every invariant (unique ids, daily entries summing to the totals, date-keyed days, task counters within the totals, savable names) |
| FocusApp.App.AddTodo | src/App.tsx:89-98 | todos becomes `Add(old todos)` and stats are unchanged; the ids stay unique and gain exactly the new id; the task totals stay within the global totals |
| FocusApp.App.UpdateTodo | src/App.tsx:100-103 | todos becomes `Update(old todos)` and stats are unchanged; the ids are unchanged; an update of an absent id is a no-op |
| FocusApp.App.DeleteTodo | src/App.tsx:105-108 | todos becomes `Remove(old todos, id)` and stats are unchanged; the id is gone, and removing an absent id is a no-op; all invariants hold |
| FocusApp.App.ArchiveTodo | src/App.tsx:110-113 | exactly the same new state as delete |
| FocusApp.App.SaveSession | src/App.tsx:115-148 | for a `YYYY-MM-DD` key `today`, todos and stats become the two session transitions of the old state, whether or not the id matches; the sum invariant, date-keyed days, unique ids and the task-within-global bound are kept |
| FocusApp.App.SubmitForm | src/App.tsx:311-317 | on the edit page with a found task, the merged record replaces it; otherwise a task is added; stats are unchanged and all invariants, including savable names, are kept |
| FocusApp.AddAndTimeScenario | .testenv/tests/app.prd.test.tsx:39-55 | on a fresh app, adding "复习高数" in "学习" through the form and then saving a 0-second session leaves exactly that task with 1 session and 0 seconds, stats `{1, 0, {today: {1, 0}}}`, and a `0分钟` duration, as the tests at lines 39-55 and 120-154 of that file expect |

## Left out

- Rendering, JSX layout, animations, lucide icons, the icon column of
  `CATEGORIES` and the theme colour constants (src/types.ts:1, 30-35). These are presentation only.
- Reading and writing `localStorage` with `JSON.parse`/`JSON.stringify`.
  This is browser I/O through library serialisers. The model starts from the
  zero state, as the app does when storage is empty, so the load/save round trip is not modelled.
- Id generation with `Math.random().toString(36)`. The fresh id is a
  parameter that must not be in use, so the random source's negligible
  collision chance becomes a precondition.
- `new Date().toISOString()`. The date key is a parameter.
- The timer's `setInterval` ticking and pause toggle. Only the whole seconds
  handed to `onSave` enter the model, as the session duration.
- The average `totalDuration / daysCount` and its formatting. This is
  floating-point division; only the day count is modelled.
- Page navigation (`currentPage`, `selectedTodoId`, "back to list" after
  each action). This is UI routing. The selected id and the current page are
  parameters of `App.SubmitForm`.
- The detail screen's minutes figure, `Math.floor(totalDuration / 60)`. This is display only.
- JavaScript numbers are doubles. Counters and durations are modelled as
  unbounded naturals, because the app only ever adds non-negative whole seconds to them.
  `TimeFormat.Decimal` renders every natural in positional digits; `toString`
  does that only below 10^21 and switches to exponent form (`1e+21`) above,
  which is far beyond any timer or statistics value.
- Plain-object key lookup. `dailyStats[today]` on a JavaScript object would find
  an inherited property for keys such as `constructor`; the model only admits
  `YYYY-MM-DD` keys, the only ones the code produces, so this never arises.
