# To-do list state, modelled in Dafny

The to-do list page is a single React component, `App`. Its state is two
fields: `tasks`, an ordered list of records `{id, text, completed}`, and
`input`, the text-entry buffer. Three handlers replace that state:

- `addTask` appends a task when the trimmed input is non-empty, then clears the input;
- `toggleComplete(id)` flips `completed` on every task whose id matches;
- `deleteTask(id)` drops every task whose id matches.

The model has three modules:

- `Whitespace` (whitespace.dfy) gives JavaScript's `String.prototype.trim` as
  functions on `string`: it drops the leading and the trailing white space.
  `IsBlank` is the test `!input.trim()`.
- `Tasks` (tasks.dfy) holds the `Task` datatype and the three list
  transformations as pure functions: `Add` is the spread append, `Toggle` is the
  `map` and `Delete` is the `filter`. The module also holds the lemmas about them.
- `TodoApp` (app.dfy) holds the class `App`. Its fields are `tasks` and `input`,
  and its methods replace those fields the way the handlers do. Each method is
  specified by the functions in `Tasks`. Every method keeps the class invariant:
  no stored task has blank text.

On three points the component behaves differently from what one might expect:

- The stored text is the raw input, not its trimmed form. Trimming is used only
  for the emptiness test.
- Ids come from the clock, so two tasks may share one. Toggle and delete act on
  every task with a matching id, not on "the" task.
- There is no edit, save or cancel code, so there is no edit session.

## Model

| member | source | states |
|---|---|---|
| `Whitespace.LeadingSpace` | src/App.jsx:81 | the count covers only white space, and the character right after it, if any, is not white space |
| `Whitespace.TrailingSpace` | src/App.jsx:81 | the count covers only white space at the end, and the character right before it, if any, is not white space |
| `Whitespace.Trim` | src/App.jsx:81 | `input.trim()` is the contiguous run of the input that starts after the leading white space; only white space lies outside it; when non-empty it neither starts nor ends with white space |
| `Whitespace.BlankIffAllWhitespace` | src/App.jsx:81 | the guard `!input.trim()` holds exactly when every character of the input is white space, including the empty input |
| `Tasks.Add` | src/App.jsx:82 | the list grows by one; the earlier tasks are unchanged and in order; the new last task has the given id, the untrimmed text and `completed == false` |
| `Tasks.Toggle` | src/App.jsx:87-89 | length, order, every id and every text are kept; `completed` changes exactly at the positions whose id matches |
| `Tasks.Delete` | src/App.jsx:93 | a task is in the result iff it was in the list and its id differs; the result is shorter by exactly the number of tasks carrying the id |
| `Tasks.CountIdZeroIffAbsent` | src/App.jsx:87-93 | the number of tasks carrying an id is zero exactly when no task carries it, so the tasks Delete removes are the ones whose absence makes toggle and delete no-ops |
| `Tasks.ToggleInvolution` | src/App.jsx:87-89 | toggling the same id twice gives back the original list |
| `Tasks.ToggleAbsent` | src/App.jsx:87-89 | toggling an id that no task carries leaves the list unchanged |
| `Tasks.DeleteIsSubsequence` | src/App.jsx:93 | the result of delete keeps the original relative order: it is a subsequence of the list |
| `Tasks.SubsequenceBound` | src/App.jsx:93 | no order-preserving selection that avoids the id is longer than the list minus the tasks carrying the id |
| `Tasks.DeleteUnique` | src/App.jsx:93 | any order-preserving selection that avoids the id and has that maximal length equals the result of delete, so delete keeps exactly the other tasks in their original order |
| `Tasks.DeleteIdempotent` | src/App.jsx:93 | deleting the same id twice is the same as deleting it once |
| `Tasks.DeleteAbsent` | src/App.jsx:93 | deleting an id that no task carries leaves the list unchanged |
| `Tasks.DeleteAppend` | src/App.jsx:93 | deleting from a concatenation is deleting from each part |
| `Tasks.ToggleDeleteCommute` | src/App.jsx:86-94 | toggling one id and deleting another (or the same) id give the same list in either order |
| `Tasks.DeleteUndoesAdd` | src/App.jsx:80-94 | adding a task under an id no task has and then deleting that id gives back the original list |
| `Tasks.AddKeepsNonBlank` | src/App.jsx:80-84 | appending a task with non-blank text keeps every stored text non-blank |
| `Tasks.ToggleKeepsNonBlank` | src/App.jsx:87-89 | toggling keeps every stored text non-blank |
| `Tasks.DeleteKeepsNonBlank` | src/App.jsx:93 | deleting keeps every stored text non-blank |
| `TodoApp.App.constructor` | src/App.jsx:77-78 | the component starts with no tasks and an empty input |
| `TodoApp.App.SetInput` | src/App.jsx:102 | typing replaces the input buffer and leaves the tasks alone |
| `TodoApp.App.AddTask` | src/App.jsx:80-84 | blank input changes neither field; otherwise the tasks become `Add` of the old tasks, the id and the untrimmed old input, and the input becomes empty; no stored text is blank |
| `TodoApp.App.ToggleComplete` | src/App.jsx:86-90 | the tasks become `Toggle` of the old tasks and the id; the input is unchanged |
| `TodoApp.App.DeleteTask` | src/App.jsx:92-94 | the tasks become `Delete` of the old tasks and the id; the input is unchanged |
| `TodoApp.AddToggleDeleteSession` | src/App.jsx:76-94 | from an empty list: add "A", add "B", toggle "A", delete "B"; with distinct ids the list is exactly one completed task "A"; when both adds get the same id the list ends empty |
| `TodoApp.AddBlankSession` | src/App.jsx:80-84 | adding whitespace-only input to a new component leaves the list empty and the input as typed |

## Left out

- The styled-component definitions (src/App.jsx:4-74) and the JSX rendering (src/App.jsx:96-125) are presentation, not state.
- Click-event plumbing is not modelled. This covers the row `onClick` that toggles (src/App.jsx:112) and the `e.stopPropagation()` that keeps a delete click from also toggling (src/App.jsx:116). Each handler is one transition here, so a delete click is a `DeleteTask` alone.
- `Date.now()` is a clock read. The id is an argument of `AddTask`, and nothing assumes it is fresh or unique.
- React's `useState` scheduling and stale closures are not modelled. Each handler is an atomic transition on the current state.
- JavaScript strings are UTF-16 code units; here a `string` is a sequence of Unicode scalar values. Every character that `trim` removes lies in the Basic Multilingual Plane, so the emptiness test is the same either way.
- `Whitespace.IsWhitespace` is a fixed list: the ECMAScript WhiteSpace and LineTerminator code points, with the Unicode space separators written out. It does not follow changes to the space separators in later Unicode versions.
- The component has no edit, save or cancel handler, so no edit session is modelled.
