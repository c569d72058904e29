# Task list state machine

A Dafny model of the `TodoApp` class of a browser to-do list (`script.js`).
The application keeps three pieces of state: an ordered list of tasks (newest
first, each with an `id`, a `text`, a `completed` flag and a `createdAt`
timestamp), a counter that hands out the next id, and an optional "editing"
id naming the task whose text the next submit replaces. The model covers the
handlers that change that state: `addTask` (add or update), `updateTask`,
`toggleTask`, `deleteTask`, `editTask`, `clearAllTasks`, the counts of
`updateStats`, and the start state the constructor loads. It proves what
each handler changes, what it leaves alone, and that the well-formedness
invariant holds after every handler. The invariant says ids are distinct and
below the counter, and so is the editing id.

Modules:

- `Wrappers`: `Option`, standing in for JavaScript `null`.
- `Text`: `String.prototype.trim`, over the WhiteSpace and LineTerminator
  code points of ECMA-262.
- `Tasks`: the `Task` record and the list operations the handlers use.
  These are `findIndex`/`find` by id (first match), the text update, and
  the `filter` that deletes (all matches).
- `TodoApp`: the `State`, the `Valid` invariant, and one pure function per
  handler.
- `Stats`: the three counts, and how each handler moves them.
- `Runs`: sessions as sequences of user events. They carry the facts about
  history: ids are never reused, and adds stack newest first.

Outside inputs are parameters. These are the input box's raw text, the clock
reading stored as `createdAt` (an opaque string), and the answer to the
clear-all confirmation dialog (a `bool`).

The test `if (this.editingTaskId)` is modelled as JavaScript truthiness.
`null` and the id `0` are both falsy (`TodoApp.Truthy`). From the default
start the counter hands out ids from 1, so on every state reachable from it
the test means "an editing id is set" (`TodoApp.TruthyIffSet`). A stored
counter of 0 becomes 1, but a negative one is kept (`parseInt("-1") || 1` is
-1), so the counter itself can later hand out 0; stored tasks may also carry
id 0. While such an id is under edit, a submit takes the add branch and the
editing id stays set; the model keeps that behaviour.

Two behaviours are modelled as the code has them:

- A deleted task under edit leaves the editing id dangling. The next
  non-empty submit finds nothing to rewrite, clears the editing id and
  creates nothing, so the typed text is lost.
- Clear-all leaves the counter alone, so ids are never reused.

Three behaviours of the code are easy to miss:

- On load, a missing task list becomes `[]`. A stored counter that is
  missing, non-numeric or 0 becomes 1. Unparseable task data does not fall
  back to an empty list: `JSON.parse` throws and the constructor fails.
  `TodoApp.Load` covers every path except the `JSON.parse` throw.
- Nothing checks stored tasks. Ids may repeat or reach the counter, so the
  invariant is a precondition on the start state rather than a guarantee.
- `updateTask`, `toggleTask` and `editTask` act on the FIRST task with the
  id, while `deleteTask` removes EVERY task with it. Under the invariant
  these coincide (`Tasks.DistinctFirstWithId`).

## Model

| member | source | states |
|---|---|---|
| Text.Trim | script.js:33 | the trimmed input neither starts nor ends with whitespace, is never longer than the input, and is empty exactly when the input is all whitespace |
| Text.TrimIsSlice | script.js:33 | trimming removes only whitespace and only at the two ends: the result is a slice of the input with whitespace on both sides of it |
| Text.TrimUnique | script.js:33 | any string with no whitespace at its ends, padded with whitespace on either side, trims back to exactly itself |
| Text.TrimIdempotent | script.js:33 | trimming a trimmed string changes nothing |
| Tasks.FindIndex | script.js:62-63 | the search returns the first position holding the id, and returns none exactly when no task holds it |
| Tasks.DistinctFirstWithId | script.js:62 | with distinct ids, the first task carrying an id is the only task carrying it |
| Tasks.FindIndexSameIds | script.js:69 | the search looks only at ids: lists that agree on ids position by position give the same answer |
| Tasks.UpdateTask | script.js:61-66 | the list keeps its length; the first task with the id gets the new text with its other fields kept; every other task is unchanged |
| Tasks.WithoutId | script.js:79 | after the filter no task has the id, and a task survives exactly when it was in the list with a different id |
| Tasks.WithoutIdKeepsDistinct | script.js:79 | filtering a list with distinct ids leaves distinct ids |
| Tasks.WithoutIdConcat | script.js:79 | filtering a concatenation is the concatenation of the filtered parts, so the survivors keep their relative order |
| Tasks.WithoutAbsentId | script.js:79 | deleting an id no task has returns the list unchanged |
| Tasks.WithoutIdDistinct | script.js:79 | with distinct ids, deleting the id of the task at position k yields the list with exactly that position cut out |
| Tasks.CountCompleted | script.js:132 | the completed count is at most the list length; it is 0 exactly when no task is completed, and equal to the length exactly when all are |
| Tasks.CountCompletedConcat | script.js:132 | the completed count of a concatenation is the sum of the parts' counts |
| Tasks.CountCompletedUpdate | script.js:132 | replacing one task moves the completed count by the difference of the old and new flags |
| TodoApp.TruthyIffSet | script.js:40 | in a positive state (every task id, the counter and the editing id at least 1), the truthiness test on the editing id holds exactly when an editing id is set |
| TodoApp.Load | script.js:3-5 | a missing list loads as empty; a missing or non-numeric counter loads as 1, and the counter is never 0; no edit is pending |
| TodoApp.FreshLoadValid | script.js:3-5 | with nothing stored, the start state is empty, well formed and positive |
| TodoApp.AddTask | script.js:32-59 | blank input changes nothing. Otherwise, with a truthy editing id, only the text of the first task with that id changes; the counter stays and the editing id is cleared. Without one, a single task with the old counter as id, the trimmed text and `completed` false is prepended; the counter rises by one; the old list is the tail. Well-formedness and positivity are kept and the counter never falls |
| TodoApp.ToggleTask | script.js:68-76 | only the first task with the id has `completed` flipped and nothing else changes; an absent id is a no-op; counter and editing id untouched; well-formedness kept |
| TodoApp.DeleteTask | script.js:78-83 | no task with the id remains and every other task stays; an absent id is a no-op; counter and editing id untouched; well-formedness kept |
| TodoApp.EditTask | script.js:85-93 | the editing id becomes the given id exactly when a task has it, otherwise stays; tasks and counter are never modified; well-formedness kept |
| TodoApp.ClearAllTasks | script.js:95-102 | when confirmed the list becomes empty while the counter and editing id stay; when declined nothing changes; well-formedness kept |
| TodoApp.ToggleTwice | script.js:68-76 | toggling the same id twice restores the original state |
| TodoApp.UpdateRewritesEditedTask | script.js:40-66 | in a well-formed state with a truthy editing id, a non-blank submit replaces the text of exactly the task carrying the editing id and leaves every other task, and every other field, unchanged |
| TodoApp.DanglingEditDiscardsText | script.js:61-65 | when the editing id is truthy and its task is gone, a non-empty submit only clears the editing id: no task is changed or created |
| TodoApp.DeleteCutsOut | script.js:79 | in a well-formed state, deleting the id of the task at position k removes exactly that task and keeps the others in order |
| Stats.UpdateStats | script.js:130-138 | total is the list length, completed the number of completed tasks, and remaining = total - completed, with 0 <= completed <= total |
| Stats.AddTaskCounts | script.js:44-58 | a non-blank submit leaves the completed count unchanged; the total rises by one when it adds and stays when it edits |
| Stats.ToggleTaskCounts | script.js:68-75 | in a well-formed state (distinct ids), toggling a present task moves the completed count by one, up or down according to its old flag, at the same total |
| Stats.DeleteTaskCounts | script.js:78-82 | in a well-formed state (distinct ids), deleting a present task lowers the total by one, and the completed count by one exactly when that task was completed |
| Runs.Step | script.js:24-30 | one user action is a submit or clear-all wired here, or a toggle, edit or delete from the per-task buttons (script.js lines 117-122); no user action lowers the counter, and every action keeps a well-formed state well formed and a positive state positive |
| Runs.Run | script.js:46 | over any session the counter never moves backwards |
| Runs.RunPreserves | script.js:46-52 | a session started in a well-formed state stays well formed after every event, and one started in a positive state stays positive |
| Runs.IssuedIdsBelowCounter | script.js:46 | every id held at any point of a well-formed session is below the counter at its end: ids are never reused |
| Runs.ClearThenAddAboveHistory | script.js:95-97 | after any well-formed session, a confirmed clear-all and an add, the single new task's id is above every id that appeared at any point of the session |
| Runs.NewestFirst | script.js:45-52 | for a run of n submits, position i holds the task made by submit number n - 1 - i (counting from 0), numbered counter + n - 1 - i: the last submit's task comes first and the ids fall by one per position |
| Runs.AddsAreNewestFirst | script.js:45-52 | a run of non-blank submits with no edit pending stacks the new tasks in front of the old list, most recent first, with consecutive ids from the counter |
| Runs.LatestAddFirst | script.js:52 | after a run of adds, one more add puts its task, numbered by the counter the run left, at the front of the list the run built |
| Runs.EditDeleteSubmit | script.js:61-65 | in a well-formed, positive state, editing a task, deleting it and then submitting non-blank text leaves the list the delete left, with the counter unchanged and no edit pending: the submitted text is lost |

## Left out

- Rendering (`renderTasks`, script.js:104-128): HTML templating, `innerHTML`, the empty-state placeholder and the disabled flags on buttons are presentation. The rule that a completed task's edit button is disabled is one of these flags. The model lets `EditTask` target completed tasks, as the class itself does.
- `escapeHtml` (script.js:145-149) hands escaping to the browser's DOM serializer, a foreign call whose behaviour is not visible here.
- Persistence (script.js:140-143) and the parsing on load: `localStorage`, `JSON.stringify`, `JSON.parse` and `parseInt` are host-library I/O. Load takes their parsed results as parameters. Corrupt JSON, which throws, is not modelled. So the round trip of saving and reloading is not modelled either.
- The clock (`new Date().toISOString()`, script.js:49) is an opaque timestamp parameter, and the `confirm` dialog (script.js:96) is a boolean parameter.
- The input field's contents, focus, and the button label (script.js:36, 43, 55, 88-91) are UI side effects. In particular, `editTask` copying the task text into the input box is not modelled. The next submit takes whatever raw text the user leaves there as a parameter.
- Ids are unbounded integers. JavaScript numbers lose integer precision above 2^53, and stored ids that are not integers are not modelled.
- Strings are sequences of Unicode scalar values, while JavaScript strings are UTF-16 code units, so task text holding a lone surrogate cannot be represented. `trim` is unaffected: every code point it removes lies in the Basic Multilingual Plane.
- The exact set of Unicode space separators that `trim` removes follows the current Unicode version. A different engine's Unicode tables could differ in that set.
