# Task list model

A Dafny model of the state logic of a browser to-do list (`script.js`). The
list is an ordered collection of task records. Each record has an id, a
text, a category, a priority (low, normal or high), an optional deadline and
a done flag. The user adds, completes, deletes and drag-reorders tasks,
clears the whole list, and looks at it through a status filter, a category
filter and a search box. The program keeps this state in global variables
changed by DOM event handlers. Here every handler is a pure function from
the old collection to the new one.

Modules, one per concern of the script:

- `Wrappers` (`wrappers.dfy`): `Option` for deadlines and `Result` for a refused add.
- `Text` (`text.dfy`): JavaScript `trim` with the ECMAScript whitespace set,
  lower-casing, and `includes` as a specification plus a scanning method.
- `Seqs` (`seqs.dfy`): `Array.prototype.filter`, the subsequence relation, and
  the single-element `splice` removal and insertion.
- `Tasks` (`tasks.dfy`): the task record, `findTaskIndex`, the add handler,
  `toggleDone`, `deleteTask` and the clear-all handler.
- `Deadlines` (`deadlines.dfy`): `isOverdue` and `isImminent` against an explicit `now`.
- `View` (`view.dfy`): the three filter stages of `renderTasks`, the per-row
  overdue and warning flags, and `updateCounter`.
- `Reorder` (`reorder.dfy`): the pending drag source (`dragSrcId`), `dragStart`,
  `dropItem` and `dragEnd`.

Where the code behaves differently from what its names or comments suggest, the model follows the code:

- A drop moves the source to the index the target had BEFORE the source was
  removed. Dragged backwards, the task lands just before the target. Dragged
  forwards, it lands just after it. It is not a "move before the target"
  (`Reorder.Move`, `Reorder.ReorderTasks`).
- `dropItem` does not clear the pending source; only `dragEnd` does (`Reorder.Drop`).
- `deleteTask` removes every task carrying the id, not one (`Tasks.DeleteTask`).
- Ids come from `Date.now()`, so nothing keeps them distinct. The model
  proves which operations preserve distinct ids. For an add, that holds
  exactly when the new id is fresh (`Tasks.AddKeepsIdsUnique`).
- Loading runs `JSON.parse` on the stored value. Corrupt data makes it throw,
  so the load does not fail soft. Loading is not modelled.

## Model

| member | source | states |
|---|---|---|
| Text.Trim | script.js:198 | `trim` gives the maximal infix that neither starts nor ends with ECMAScript whitespace; everything cut off on either side is whitespace |
| Text.FindSubstring | script.js:95 | an executable scan refining the `Includes` predicate that the search stage uses: it reports a match exactly when the query occurs somewhere in the text, and also the first such position |
| Text.Lower | script.js:93-95 | lower-casing keeps the length, leaves no ASCII upper-case letter, and leaves every other character as it was |
| Tasks.NormalizePriority | script.js:214 | the priority is high exactly for the input "high", low exactly for "low", and normal for anything else |
| Tasks.FindTaskIndex | script.js:246-248 | the result is -1 exactly when no task carries the id; otherwise it is the index of the first task that does |
| Tasks.AddTask | script.js:198-220 | the add is refused exactly when the trimmed text is shorter than 3; a successful add keeps the old tasks as a prefix and appends one task with the trimmed text, the given id, category and deadline, done false, and a normalised priority |
| Tasks.AddClicked | script.js:196-222 | the handler as written: a short text leaves the collection unchanged and shows the error message; otherwise the error line is cleared and one not-done task is appended, carrying the trimmed text, the given id and deadline, and a category AND priority that both come from the category selector |
| Tasks.AddClickedPriorityFollowsCategory | script.js:199 | with the handler as written, every task whose category is not "high" or "low" is given the normal priority |
| Tasks.AddTaskHonoursPriority | script.js:214 | with a priority input of its own, choosing "high" gives a high-priority task whatever the category |
| Tasks.AddKeepsIdsUnique | script.js:210-211 | appending to a collection with distinct ids keeps them distinct exactly when the new id is not already present |
| Tasks.ToggleDone | script.js:237-243 | the done flag flips on the first task carrying the id and nowhere else, the length is unchanged, and an unknown id leaves the collection unchanged |
| Tasks.ToggleTwice | script.js:237-243 | toggling the same id twice restores the original collection |
| Tasks.ToggleKeepsIdsUnique | script.js:240 | toggling keeps distinct ids distinct |
| Tasks.DeleteTask | script.js:252-256 | the result is the subsequence of the original that keeps every task whose id differs, in order and with duplicates (its length is the number of such tasks); no task with the id remains; an unknown id changes nothing |
| Tasks.DeleteIdempotent | script.js:253 | deleting the same id a second time is a no-op |
| Tasks.DeleteRemovesOne | script.js:253 | when ids are distinct and the id is present, exactly one task is removed |
| Tasks.DeleteKeepsIdsUnique | script.js:253 | deleting keeps distinct ids distinct |
| Tasks.ClearAll | script.js:333-339 | a confirmed clear empties the collection; a declined one leaves it untouched |
| Deadlines.IsOverdue | script.js:59-62 | without a deadline a task is never overdue, and an overdue deadline is never also imminent |
| Deadlines.IsImminent | script.js:65-70 | a deadline is imminent exactly when it is set, lies after now, and lies at most 86 400 000 ms later |
| Deadlines.OverdueWindow | script.js:59-62 | a set deadline is overdue exactly when it lies strictly before now |
| Deadlines.DeadlineNowNoFlags | script.js:59-70 | a deadline equal to now is neither overdue nor imminent |
| View.VisibleTasks | script.js:80-96 | the visible list is one filter of the collection by the combined status, category and search test; it is an order-preserving subsequence and holds exactly the tasks that pass all three |
| View.CategoryStageIsFilter | script.js:87-90 | skipping the category stage for "all" is the same as filtering by "category is all or equal" |
| View.SearchStageIsFilter | script.js:93-96 | skipping the search stage for an empty trimmed query is the same as filtering by containment, since the empty string occurs in every text |
| View.StagesAreOneFilter | script.js:80-96 | the three stages applied in sequence equal a single filter by their conjunction |
| View.ActiveWorkScenario | script.js:80-96 | for A open at home, B done and C open at work: the active view is [A, C]; with category work it is [C]; searching "xyz" gives [] |
| View.RowFor | script.js:101-149 | a row is marked overdue exactly when the task is not done and its deadline has passed; it warns exactly when the task is not done and its deadline is imminent; a row never shows both |
| View.RenderRows | script.js:99-150 | one row per visible task, in visible order; each row is that task's own row, with its id, text, priority class and done flag, its overdue and warning flags; no row is both overdue and warned |
| View.Counter | script.js:188-191 | the total is the collection length, and open plus done tasks make up the total |
| View.CounterMatchesActiveView | script.js:188-191 | the open count equals the length of the active view with no category or search |
| View.ToggleCounter | script.js:237-243 | toggling a present id keeps the total and moves the open count by exactly one, up if the task was done and down otherwise |
| View.AddCounter | script.js:220 | a successful add raises both the open count and the total by one |
| View.ClearCounter | script.js:333-339 | after a confirmed clear the counter reads 0 / 0 |
| Seqs.Filter | script.js:253 | `filter` keeps exactly the elements that pass the test, in their original order: the result is a subsequence of the input, its length is the number of passing elements, and an element is kept iff it is in the input and passes |
| Seqs.RemoveAt | script.js:281 | `splice(i, 1)` shortens by one, keeps the elements before `i`, shifts the ones after it down by one, and removes exactly one copy of the element at `i` from the multiset |
| Seqs.InsertAt | script.js:282 | `splice(i, 0, x)` lengthens by one, puts `x` at index `i`, keeps the elements before it and shifts the rest up by one, adding exactly one copy of `x` |
| Reorder.Move | script.js:279-282 | the move keeps the length and the multiset of elements; the moved element sits at the target's original index; all other elements keep their relative order; the target ends just after the moved element when it came from behind, just before it when it came from in front |
| Reorder.MoveBack | script.js:281-282 | moving the element back from its new index to its old one restores the original sequence |
| Reorder.MoveKeepsIdsUnique | script.js:281-282 | a move keeps distinct ids distinct |
| Reorder.ReorderTasks | script.js:279-282 | with both ids looked up in the whole collection, the reorder keeps the length and multiset of tasks, puts the source at the target's original index, keeps the others in order, and is the identity for equal ids |
| Reorder.DragStart | script.js:262-266 | drag start records the row's id as the pending source and leaves the collection alone |
| Reorder.DragEnd | script.js:288-291 | drag end always resets the pending source to none and leaves the collection alone |
| Reorder.Drop | script.js:273-286 | a drop with no pending source, or onto the source itself, changes nothing; otherwise the collection is exactly the store-level reorder of the source onto the target (so it really changes, keeps its multiset of tasks, puts the source at the target's index and keeps the others in order); the pending source is left as it was |
| Reorder.Gesture | script.js:260-291 | a drag start, drop and drag end leave the drag idle and the collection reordered exactly when source and target differ |

## Left out

- DOM construction, styling, focus handling and event wiring
  (script.js:13-27, 99-181, 224-233, 295-310) are presentation, apart from the
  row flags modelled by `View.RowFor`: the priority, done, overdue and warning
  choices of script.js:101-104 and 136-149. `dragOver` only
  allows the drop and changes no state. The Enter key fires the same add handler.
- The status buttons and `setFilter` only set `currentFilter`. The model takes
  the filter state as the `View.Filters` parameter.
- The localStorage writes and the initial `JSON.parse` load (script.js:33, 41-43)
  are host I/O and are not modelled.
- The theme toggle (script.js:314-329) is a display preference.
- The confirmation prompt of the clear-all handler becomes the `confirmed` parameter.
- The 60-second re-render timer (script.js:344-346) is scheduling. It changes no state.
- Date parsing and locale formatting, including the display-only creation
  time. Deadlines and `now` are integers in milliseconds. `isOverdue` and
  `isImminent` each read the clock separately; the model uses a single `now`
  for both. Deadline strings that do not parse are not represented.
- Id generation with `Date.now()`: the id is a parameter of the add.
- Ids in the drag handlers are the rows' `data-id` strings, compared with
  `String(...)`. Ids here are integers. `String` is injective on integers, so
  comparing the integers gives the same answers.
- Reorder.ReorderTasks: requires both ids to be present. For a missing id the
  script calls `splice(-1, …)`: a missing source makes it remove the LAST task
  and insert that one at the target's index; a missing target makes it
  re-insert the source at index `length - 1` of the shortened collection, just
  before the task that is then last. Neither case is modelled.
- Reorder.Drop: requires both ids to be present when a move will happen, for
  the same reason.
- View.VisibleTasks: `toLowerCase` is modelled as ASCII lower-casing. Other
  letters compare case-sensitively here.
- Text.Lower: folds only the ASCII letters A-Z. Other letters are not folded,
  so a search for "ä" does not find a text written with "Ä", where
  `toLowerCase` would match them.
- Tasks.AddTask: measures text length in Unicode code points. JavaScript counts
  UTF-16 code units, so a text with characters outside the Basic Multilingual
  Plane can pass the length check in the script and fail it here.
- The category badge capitalisation (script.js:121) is display only.
- `findTaskIndexById` (script.js:46-48) duplicates `findTaskIndex` and is never
  called. `Tasks.FindTaskIndex` models both.

## Findings

| source | as written | input that shows it | evidently intended | confidence | as-written member | corrected member |
|---|---|---|---|---|---|---|
| script.js:199 | the add handler reads the priority from `categorySelect`, the same selector that supplies the category | any category other than "high" or "low", for example "work": the new task's priority is normal whatever priority was meant | the priority read from a selector of its own and then normalised | medium; not executed | Tasks.AddClicked, Tasks.AddClickedPriorityFollowsCategory | Tasks.AddTask, Tasks.AddTaskHonoursPriority |
