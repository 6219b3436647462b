# Todo list state model

A Dafny model of the state logic of a small React todo list: the `TodoApp`
component, which owns the list of todos and replaces it on every add, toggle,
delete and edit, and the `TodoItem` component, one per row, which carries its
own edit mode (`isEditing`, `editText`) and reports what the user does through
the `onToggle`, `onDelete` and `onEdit` callbacks.

- `text.dfy` (module `Text`): JavaScript's `String.prototype.trim` as `Trim`,
  over the ECMAScript whitespace and line-terminator characters, with a
  reference characterisation (trimming a padded trimmed string gives it back;
  every string is its trim with blank padding) and idempotence.
- `lists.dfy` (module `Lists`): `Array.prototype.map` and `filter` as `Map`
  and `Filter`, with what the list relies on: a filter keeps order
  (`IsSubsequence`), is idempotent, is the identity when it keeps everything,
  and a predicate and its negation split a sequence as a multiset.
- `todo_list.dfy` (module `TodoList`): the `Todo` record, `FilterType`, the new
  lists the handlers compute (`Toggled`, `Retexted`, `Removed`), the
  `filteredTodos` view (`Visible`), `activeTodosCount`, the list invariant
  `WellFormed` (distinct ids, non-empty trimmed texts) and the lemmas about them.
- `todo_item.dfy` (module `Item`): class `TodoItem` with the fields `todo`,
  `isEditing`, `editText`; one method per handler; `Dispatch`, which says which
  elements are rendered in each mode and so which events can happen; the emitted
  callback is returned as an `Option<Action>`.
- `todo_app.dfy` (module `App`): class `TodoApp` with the fields `todos`,
  `newTodo` and `filter`, one method per handler, `Perform` for the callbacks
  the rows receive, `FilteredTodos` and `ActiveCount` for what the app renders
  from its state, and the add/add/toggle scenario `BuyMilkWalkDog` with its
  views checked in `BuyMilkWalkDogShown`.

`crypto.randomUUID()` and `new Date()` are parameters of `AddTodo` (`id`, and
`now` as milliseconds since the epoch). The source does not check that the id
is fresh, so `AddTodo` does not require it either; it keeps `WellFormed` when the
id is fresh. `WellFormed` is not an invariant of the class: the load on mount
installs whatever was stored without checking it, and every handler keeps
`WellFormed` when it holds before.

The load does not skip malformed records one by one. A stored value that cannot be
parsed, or is not an array, leaves the list as it is; otherwise the parsed
records replace the list unchecked (`src/components/TodoApp.tsx:23-36`).

## Model

| member | source | states |
|---|---|---|
| `Text.Trim` | src/components/TodoApp.tsx:44-47 | the result of `trim` has no whitespace at either end, and it is empty exactly when the input is blank |
| `Text.TrimOfPadded` | src/components/TodoApp.tsx:47 | whitespace added on either side of a trimmed string is exactly what `trim` removes |
| `Text.TrimDecomposes` | src/components/TodoApp.tsx:47 | every string is its trim with a blank prefix and a blank suffix |
| `Text.TrimFixesTrimmed` | src/components/TodoApp.tsx:72 | `trim` leaves a string unchanged exactly when it is already trimmed |
| `Text.TrimIdempotent` | src/components/TodoApp.tsx:72 | trimming twice is trimming once |
| `Lists.Map` | src/components/TodoApp.tsx:58-60 | `map` keeps the length and puts `f` of each element at its position |
| `Lists.Filter` | src/components/TodoApp.tsx:78-82 | `filter` keeps exactly the elements that satisfy the predicate and never grows |
| `Lists.FilterIsSubsequence` | src/components/TodoApp.tsx:65 | `filter` keeps the survivors in their original relative order |
| `Lists.FilterKeepsAll` | src/components/TodoApp.tsx:65 | a filter that keeps every element returns the sequence unchanged |
| `Lists.FilterIdempotent` | src/components/TodoApp.tsx:65 | filtering twice by one predicate is filtering once |
| `Lists.FilterAgreeing` | src/components/TodoApp.tsx:84 | predicates that agree on the elements select the same subsequence |
| `Lists.FilterComplements` | src/components/TodoApp.tsx:78-84 | a predicate and its negation split a sequence into parts whose multisets and lengths add up to it |
| `TodoList.Toggled` | src/components/TodoApp.tsx:56-62 | toggling keeps length, order, ids, texts and timestamps, and flips `completed` exactly on the items with that id |
| `TodoList.ToggledAbsent` | src/components/TodoApp.tsx:58-59 | toggling an id no item has leaves the list unchanged |
| `TodoList.ToggledTwice` | src/components/TodoApp.tsx:56-62 | toggling the same id twice restores the list |
| `TodoList.ToggledWellFormed` | src/components/TodoApp.tsx:56-62 | toggling keeps ids distinct and texts non-empty and trimmed |
| `TodoList.Retexted` | src/components/TodoApp.tsx:70-74 | editing keeps length, order, ids, `completed` and timestamps, and sets the text exactly on the items with that id |
| `TodoList.RetextedAbsent` | src/components/TodoApp.tsx:71-72 | editing an id no item has leaves the list unchanged |
| `TodoList.RetextedTwice` | src/components/TodoApp.tsx:68-76 | storing the same text twice is storing it once |
| `TodoList.RetextedWellFormed` | src/components/TodoApp.tsx:68-76 | storing a non-empty trimmed text keeps the list invariant |
| `TodoList.Removed` | src/components/TodoApp.tsx:64-66 | after a delete no item has that id, every other item is still there, and nothing new appears |
| `TodoList.RemovedIsSubsequence` | src/components/TodoApp.tsx:65 | a delete keeps the remaining items in their original relative order |
| `TodoList.RemovedKeepsOthers` | src/components/TodoApp.tsx:65 | a delete removes exactly the items with that id: the rest and those items make up the old list as a multiset |
| `TodoList.RemovedAbsent` | src/components/TodoApp.tsx:65 | deleting an id no item has leaves the list unchanged |
| `TodoList.RemovedTwice` | src/components/TodoApp.tsx:64-66 | deleting twice gives the same list as deleting once |
| `TodoList.RemovedLength` | src/components/TodoApp.tsx:64-66 | with distinct ids a delete removes one item when the id is present and none otherwise |
| `TodoList.RemovedWellFormed` | src/components/TodoApp.tsx:64-66 | deleting keeps the list invariant |
| `TodoList.PrependWellFormed` | src/components/TodoApp.tsx:45-51 | putting an item with a fresh id and a valid text in front keeps the list invariant |
| `TodoList.Visible` | src/components/TodoApp.tsx:78-82 | a view holds exactly the items its filter selects (`active`: not completed; `completed`: completed; `all`: every item) |
| `TodoList.ActiveTodosCount` | src/components/TodoApp.tsx:84 | the active count is at most the number of items |
| `TodoList.VisibleAll` | src/components/TodoApp.tsx:81 | the `all` view is the whole list |
| `TodoList.VisibleIsSubsequence` | src/components/TodoApp.tsx:78-82 | every view lists its items in list order |
| `TodoList.ViewsPartition` | src/components/TodoApp.tsx:78-82 | the `active` and `completed` views are disjoint, their multisets add up to the list, and so do their lengths |
| `TodoList.ActiveCountIsActiveView` | src/components/TodoApp.tsx:84 | the active count is the length of the `active` view, and the list length minus it is the length of the `completed` view |
| `Item.TodoItem.constructor` | src/components/TodoItem.tsx:18-19 | a new row is not editing and its buffer holds the todo's text |
| `Item.TodoItem.Receive` | src/components/TodoItem.tsx:17 | a re-render with the same todo id replaces the todo prop and keeps the edit state |
| `Item.TodoItem.HandleEdit` | src/components/TodoItem.tsx:21-26 | a non-blank buffer emits `onEdit(todo.id, buffer)` untrimmed and leaves edit mode, keeping the buffer; a blank buffer emits nothing and changes nothing |
| `Item.TodoItem.HandleCancel` | src/components/TodoItem.tsx:28-31 | cancel restores the buffer from the todo's text and leaves edit mode |
| `Item.TodoItem.HandleKeyPress` | src/components/TodoItem.tsx:33-39 | Enter acts as commit, Escape as cancel, any other key emits nothing and changes nothing |
| `Item.TodoItem.StartEdit` | src/components/TodoItem.tsx:94 | the pencil button enters edit mode and keeps the buffer |
| `Item.TodoItem.ChangeText` | src/components/TodoItem.tsx:57 | typing sets the buffer |
| `Item.TodoItem.Dispatch` | src/components/TodoItem.tsx:47-107 | the checkbox emits `onToggle(todo.id)` in both modes; delete emits `onDelete(todo.id)` only outside edit mode; the pencil button enters edit mode; typing, save, cancel and keys act only in edit mode; every emitted callback carries the row's id |
| `Item.CommittedEditIsAccepted` | src/components/TodoItem.tsx:21-25 | a committed buffer is never rejected by `editTodo`: its trim is non-empty and trimmed and becomes the text of the row's todo; the stored text equals the buffer exactly when the buffer is trimmed |
| `App.TodoApp.constructor` | src/components/TodoApp.tsx:18-20 | the app starts with no todos, an empty input and the `all` filter |
| `App.TodoApp.Load` | src/components/TodoApp.tsx:23-36 | a parsed stored list replaces the list as it is; a missing or unparsable one leaves it unchanged |
| `App.TodoApp.SetNewTodo` | src/components/TodoApp.tsx:110 | typing sets the input text |
| `App.TodoApp.AddTodo` | src/components/TodoApp.tsx:43-54 | a blank input changes nothing; otherwise the list becomes the new item (fresh id, trimmed text, not completed, creation time) followed by the old list, and the input is cleared; the list invariant is kept when the id is fresh |
| `App.TodoApp.HandleKeyPress` | src/components/TodoApp.tsx:86-90 | Enter adds, other keys change nothing; the list invariant is kept when the id is fresh |
| `App.TodoApp.ToggleTodo` | src/components/TodoApp.tsx:56-62 | the list becomes its toggle by the id, keeping the list invariant |
| `App.TodoApp.DeleteTodo` | src/components/TodoApp.tsx:64-66 | the list becomes its delete by the id, keeping the list invariant |
| `App.TodoApp.EditTodo` | src/components/TodoApp.tsx:68-76 | a blank new text changes nothing; otherwise its trim replaces the text on the items with that id; the list invariant is kept |
| `App.TodoApp.FilteredTodos` | src/components/TodoApp.tsx:78-82 | the rendered list holds exactly the items the selected filter shows, in list order, and under `all` it is the whole list |
| `App.TodoApp.ActiveCount` | src/components/TodoApp.tsx:84 | the count of the app's list is the length of its `active` view, and the rest is its `completed` view |
| `App.TodoApp.SetFilter` | src/components/TodoApp.tsx:20 | the selected filter becomes the chosen one |
| `App.TodoApp.Perform` | src/components/TodoApp.tsx:148-150 | a row's `onToggle`, `onDelete` and `onEdit` are the app's toggle, delete and edit |
| `App.BuyMilkWalkDogViews` | src/components/TodoApp.tsx:78-84 | for a completed item before an active one, the views are the whole list, the completed item and the active item, and the active count is 1 |

## Left out

- Saving to `localStorage` after every change (`src/components/TodoApp.tsx:39-41`): it writes `JSON.stringify(todos)` to a browser API and computes nothing the model reads back.
- `App.TodoApp.Load`: reading the slot, `JSON.parse` and `new Date(todo.createdAt)` are not modelled; their outcome is the `Option<seq<Todo>>` parameter, and a bad date that would become an Invalid Date is not represented.
- The order in which React runs the load and save effects, and its batching of state updates.
- `crypto.randomUUID()` and the clock: parameters of `AddTodo`.
- Rendering, styling and animation, the locale date formatting of `createdAt`, and all of `src/components/TodoFilters.tsx`, which only displays; its completed figure `totalTodos - activeTodosCount` is stated by `TodoList.ActiveCountIsActiveView`.
- The disabled state of the add button (`src/components/TodoApp.tsx:117`) and of the save button: both guard with the same test the handlers make themselves, so they change no outcome.
- `Text.Trim`: the whitespace set is the Unicode space separators as of Unicode 6.3 and later; it does not include U+180E MONGOLIAN VOWEL SEPARATOR, which was a space separator before Unicode 6.3 and which engines built on those older tables still strip.
