# Date-scoped to-do list: the task store

This project models the task store of a single-page to-do list
(`script.js`). The store maps a date key to that day's list of task
records `{id, text, completed}`. The list is kept in insertion order,
which is also display order. The model covers:

- `addTask`: trims the input box's value, ignores empty text, creates the
  day's list when the key is absent, and appends a new incomplete task.
- `toggleTask`: flips `completed` on the first task (`find`) whose id
  matches.
- `deleteTask`: keeps only the tasks (`filter`) whose id differs.
- The lookup part of `loadTasks`: the day's stored list, or nothing.

Everything is pure. The store is an immutable `map<string, seq<Task>>`.
The date key is an opaque string. The source store is a plain
JavaScript object, where a key such as `"constructor"` would find an
inherited value and break `addTask`; `getDateKey` (line 51) yields an ISO date
such as `2024-06-01` (with a signed six-digit year outside 0-9999),
never an inherited property name. The new task's id is a parameter. The
source gets it from `Date.now()`, so two tasks can share an id. The
contracts therefore state what `find` (first match only) and `filter`
(every match) do with duplicates.

Modules:

- `Text` (`text.dfy`): `String.prototype.trim`. It uses the ECMAScript
  WhiteSpace and LineTerminator code points.
- `DayList` (`day_list.dfy`): the `Task` record and the operations on one
  day's list: first match, toggle and filter.
- `TaskStore` (`store.dfy`): the store with add, toggle, delete and lookup.
  Also frame properties, round trips, and preservation of distinct ids.
- `History` (`history.dfy`): a run of submissions to one day, and the
  insertion order `loadTasks` shows afterwards.
- `Scenarios` (`scenarios.dfy`): small concrete walk-throughs.

`toggleTask` and `deleteTask` read `tasks[dateKey]` without checking it.
On a day with no entry they would throw. The page only calls them from a
task it rendered from that day's list, so the key is always present. The
model states this as `requires day in s` on `Toggle` and `Delete`.

Facts about `script.js` that fix the scope of the model:

- There is no edit operation and no limit on the length of a task's text.
- `toggleTask` flips only the first task with the id (`find`, line 103).
- `deleteTask` removes every task with the id (`filter`, line 113).
- A malformed stored value makes `JSON.parse` throw at line 11.
  Persistence is not modelled.

## Model

| member | source | states |
|---|---|---|
| Text.SkipLeading | script.js:55 | the returned position ends the run of whitespace starting at the given position: everything skipped is whitespace and the character there, if any, is not |
| Text.SkipTrailing | script.js:55 | the returned position starts the run of whitespace ending at the given position: everything skipped is whitespace and the character before it, if any, is not |
| Text.Trim | script.js:55 | the trimmed text is an infix of the input with whitespace-only margins; it is empty exactly when the input is all whitespace, and otherwise starts and ends with non-whitespace |
| Text.TrimIdempotent | script.js:55 | trimming already-trimmed text changes nothing |
| DayList.FindFirst | script.js:103 | `find` by id returns no position exactly when no task carries the id, and otherwise the position of the first task that carries it |
| DayList.ToggleList | script.js:103-105 | toggling keeps the length; at the first position whose id matches the flag is inverted with id and text kept, and every other position is unchanged |
| DayList.FilterOut | script.js:113 | filtering leaves no task with the id and never grows the list |
| DayList.FilterKeepsOthers | script.js:113 | every task with another id survives filtering as often as it occurred, and every task with the id is gone |
| DayList.FilterKeepsOrder | script.js:113 | the survivors of filtering appear in their original relative order |
| DayList.ToggleTwice | script.js:103-105 | toggling the same id twice gives back the original list |
| DayList.ToggleAbsent | script.js:103-104 | toggling an id that no task carries leaves the list equal to the original |
| DayList.ToggleAppended | script.js:103-105 | toggling the id of a task appended to a list where no task carried that id flips exactly that last task |
| DayList.ToggleFirstOfDuplicates | script.js:103 | when two tasks share the id, the later one is left untouched by a toggle |
| DayList.TogglePreservesUniqueIds | script.js:103-105 | toggling keeps distinct ids distinct |
| DayList.FilterUnchangedIff | script.js:113 | filtering returns the original list if and only if no task carries the id |
| DayList.FilterIdempotent | script.js:113 | filtering twice by the same id equals filtering once |
| DayList.FilterAppend | script.js:113 | filtering a concatenation is the concatenation of the filtered parts |
| DayList.FilterUndoesAppend | script.js:113 | filtering out the id of a task appended to a list where no task carried that id gives back that list |
| DayList.FilterRemovesOneWhenUnique | script.js:113 | when ids are distinct and the id is present, deleting removes exactly one task |
| DayList.FilterPreservesUniqueIds | script.js:113 | deleting keeps distinct ids distinct |
| TaskStore.Lookup | script.js:95-97 | the day's stored list, or the empty list when the day has no entry; insertion order of that list is History.InsertionOrder and History.ShownFromEmpty |
| TaskStore.Add | script.js:56-69 | empty text leaves the whole store unchanged; otherwise the day exists afterwards, its list is one longer, the earlier tasks are the old list (empty when absent) in order, the last is the new incomplete task with the given id and text, and every other day is unchanged |
| TaskStore.AddInput | script.js:55-69 | whitespace-only input leaves the store unchanged; otherwise exactly one task is appended, carrying the non-empty trimmed text, the given id and `completed = false`; other days are unchanged |
| TaskStore.Toggle | script.js:101-105 | the set of days, the day's length, order, ids and texts stay the same; the flag changes exactly at the first task with the id; an id not present leaves the store unchanged; other days are unchanged |
| TaskStore.Delete | script.js:111-113 | the set of days stays the same; no task with the id remains; the list never grows; survivors keep their relative order and multiplicity; the list is unchanged if and only if the id was absent; other days are unchanged |
| TaskStore.AddRenderMatchesReload | script.js:69-71 | appending the rendered new task to the screen agrees with a full reload of the new store for that day, and every other day shows what it did before |
| TaskStore.ToggleTwiceRestores | script.js:101-105 | toggling the same id twice restores the whole store |
| TaskStore.DeleteIdempotent | script.js:111-113 | deleting the same id twice equals deleting it once |
| TaskStore.DeleteUndoesAdd | script.js:59-113 | deleting the id of a just-added task whose id was new to that day gives back the store before the add when the day already had a list; when the add created the list, the day is left with an empty list and everything else is as before |
| TaskStore.ToggleAfterAdd | script.js:101-105 | toggling a just-added task whose id was new to that day marks that task, and only it, completed |
| TaskStore.AddPreservesUniqueIds | script.js:58-69 | adding with an id new to that day keeps ids distinct within every day |
| TaskStore.TogglePreservesUniqueIdsPerDay | script.js:101-105 | toggling keeps ids distinct within every day |
| TaskStore.DeleteUnderUniqueIds | script.js:111-113 | deleting keeps ids distinct within every day, and removes exactly one task when the id is present |
| History.Created | script.js:54-69 | a run of submissions creates at most one task per submission, each incomplete with non-empty text |
| History.InsertionOrder | script.js:93-98 | after a run of submissions the day shows its earlier tasks followed by the accepted submissions in the order made |
| History.ShownFromEmpty | script.js:93-98 | starting from no data, a day shows exactly its accepted submissions in order, and a day never submitted to shows nothing |
| History.AddAllOtherDays | script.js:59-69 | a run of submissions to one day leaves every other day unchanged |
| Scenarios.BuyMilk | script.js:54-69 | submitting "Buy milk" through the input box on an empty store shows exactly one incomplete "Buy milk" task; whitespace-only input adds nothing |
| Scenarios.AddToggleToggle | script.js:101-105 | adding then toggling marks the task completed; toggling again restores the store |
| Scenarios.SharedId | script.js:101-113 | with two tasks sharing an id, toggling flips only the earlier one and deleting removes both |

## Left out

- DOM rendering and event wiring (`renderTask`, the listeners, `innerHTML`): user-interface plumbing. The only rendering fact modelled is that the incremental render after an add matches a reload.
- Persistence through `localStorage`, `JSON.parse` and `JSON.stringify`: host I/O. A malformed stored value would make `JSON.parse` throw at start-up; the model makes no claim about that.
- Date navigation and labels (`updateDateDisplay`, the previous/next handlers, `getDateKey`): these depend on the JavaScript `Date` object, local time versus UTC, and locale formatting. The date key is an opaque string parameter.
- `Date.now()` id generation: a clock read. The id is a parameter, and distinct ids are not assumed except in the lemmas that say so.
- Toggle and Delete on a day with no entry: the code would throw. The page cannot reach this, so the model requires the day to be present.
- UTF-16 code units: JavaScript strings are made of them, but the model uses Unicode scalar values. Every trimmed whitespace character lies in the Basic Multilingual Plane, so the result is the same.
