# To-do store: a verified Dafny model

This project models the state store of a single-page to-do list (a TodoMVC
application written with Solid). The store holds four fields: a `counter`
that hands out ids, the list of `todos` (each with an `id`, a `completed` flag and a `title`),
the `showMode` filter chosen by the URL fragment, and the `editingTodoId` of
the item whose edit field is open. The view dispatches eight operations into
it: add, toggle all, toggle, set editing, remove, save, done-editing and clear
completed. `save` and `toggle` go through the shared `editTodo`, and the
URL-fragment listener calls `locationHandler`. The view also reads two derived
views: the number of items left and the list filtered by the current mode.

Layout:

- `wrappers.dfy`: `Option`, used for nullable fields and partial edits.
- `todos_interface.dfy`: the records `Todo`, `TodoPatch` (an edit whose id is
  required and whose other fields are optional) and `Snapshot` (the whole
  store).
- `text.dfy`: `String.prototype.trim` over the ECMAScript white-space and
  line-terminator characters.
- `todo_list.dfy`: the list-level logic as pure functions, with its lemmas.
  This covers filtering, editing in place, toggling all and the remaining
  count. It also proves that every change to the list keeps the store
  invariant: ids are distinct and lie in `[1, counter)`.
- `app.dfy`: the filter modes, the hash-to-mode mapping, `filterList` and the
  class `TodoStore`. The class holds the four fields. Each of its methods
  states the whole new state in terms of the old one, and promises that a
  valid store stays valid.

Where the type declaration and the code disagree, the model follows the code.
The declared type of `showMode` is `"all" | "active" | "completed"`, but
`locationHandler` stores any string (src/App.tsx:96-97). `filterList` then
shows every item for a mode it does not recognise. So `showMode` is a
`string` here, and `Classify` reads it the way `filterList` does. `save`
checks the trimmed value but stores the untrimmed one; the model keeps that
(`SaveCanLeaveTitleUntrimmed`). `editingTodoId` starts as `null` (`None`). `save`
and Escape set it to `-1` (`Some(-1)`), which matches no item because every
id is at least 1 (`EditingNone` in `Save` and `DoneEditing`).

## Model

| member | source | states |
|---|---|---|
| TodoList.Filter | src/App.tsx:42-44 | `filter` keeps exactly the elements that pass the test and is no longer than its input |
| TodoList.FilterCounts | src/App.tsx:50 | `filter` keeps every copy of each element that passes and no copy of one that fails |
| TodoList.RemoveDropsId | src/App.tsx:49-51 | `removeTodo` keeps exactly the items whose id differs, each as many times as in the input and in their original order, and leaves the list unchanged when no item has that id |
| TodoList.ActiveDonePartition | src/App.tsx:35-38 | the active and the completed items together account for the whole list |
| TodoList.FilterKeepsWellFormed | src/App.tsx:49-57 | removing items (removeTodo, clearCompleted) keeps ids distinct and in `[1, counter)` |
| TodoList.AppendKeepsWellFormed | src/App.tsx:68-71 | appending an item with id `counter` and then incrementing the counter keeps ids distinct and in `[1, counter)` |
| TodoList.Patch | src/App.tsx:52-54 | `editTodo` writes the supplied fields into each item with that id and leaves every other item, the length and the order unchanged |
| TodoList.PatchUpdatesOne | src/App.tsx:52-54 | with distinct ids, an edit changes exactly the one item carrying its id |
| TodoList.PatchAbsent | src/App.tsx:52-54 | an edit of an id that no item has changes nothing |
| TodoList.PatchKeepsWellFormed | src/App.tsx:52-54 | an edit keeps the store invariant |
| TodoList.SetAllCompleted | src/App.tsx:58-60 | after `toggleAll(c)` every item has `completed == c`; ids, titles, order and length are unchanged |
| TodoList.SetAllCompletedKeepsWellFormed | src/App.tsx:58-60 | toggle-all keeps the store invariant |
| TodoList.SetAllCompletedRemaining | src/App.tsx:58-60 | after toggle-all the remaining count is 0 when completing and the list length when reopening |
| TodoList.RemainingCount | src/App.tsx:35-38 | `remainingCount` is between 0 and the list length |
| TodoList.RemainingIsActive | src/App.tsx:35-38 | `remainingCount` equals the number of active items |
| TodoList.NoneRemainingIff | src/App.tsx:121 | the toggle-all box is checked exactly when every item is completed |
| TodoList.AllRemainingIff | src/App.tsx:35-38 | the remaining count equals the list length exactly when no item is completed |
| TodoList.AppendActiveRemaining | src/App.tsx:69 | adding a new (active) item raises the remaining count by one |
| TodoList.ClearCompleted | src/App.tsx:55-57 | `clearCompleted` keeps exactly the items that are not completed |
| TodoList.ClearCompletedKeepsRemaining | src/App.tsx:55-57 | clearing keeps the remaining items in order and leaves the remaining count unchanged |
| TodoList.ClearCompletedChangesIff | src/App.tsx:196-200 | the clear-completed button is shown exactly when clearing would change the list |
| Text.Trim | src/App.tsx:65 | `trim` returns the part of the string between its leading and trailing white space: what it drops at either end is white space and the result neither starts nor ends with white space; the result is empty exactly when the string is all white space |
| Text.TrimIdempotent | src/App.tsx:78 | trimming an already trimmed string changes nothing |
| App.Classify | src/App.tsx:40-48 | `filterList` treats "active" and "completed" as filters and every other mode as "all" |
| App.HashToMode | src/App.tsx:94-98 | `locationHandler` stores the fragment minus its first two characters, or "all" when that is empty; the stored mode is never empty |
| App.FollowLink | src/App.tsx:173-195 | following each footer link stores the mode that selects that link and that filters as the link says |
| App.FilterList | src/App.tsx:40-48 | `filterList` returns an order-preserving subsequence: the active items, the completed items, or the list unchanged for any other mode |
| App.FilterListSplit | src/App.tsx:40-48 | the lengths of the active and completed views add up to the list length, and the active view has `remainingCount` items |
| App.IsTrimmedIff | src/App.tsx:65 | a string has white space at neither end exactly when trimming leaves it unchanged |
| App.AppendTrimmedTitle | src/App.tsx:65-69 | `addTodo` appends the trimmed title, so a list whose titles are all trimmed stays so |
| App.SaveCanLeaveTitleUntrimmed | src/App.tsx:77-80 | `save` checks the trimmed value but stores the value itself: on `[{1, "x"}]` being edited, saving `" x "` passes the blank check and leaves a title that is not its own trim |
| App.TodoStore.constructor | src/App.tsx:28-33 | the store starts from the persisted state if there is one, otherwise from `counter 1`, no items, mode "all", nothing being edited, which is valid |
| App.TodoStore.AddTodo | src/App.tsx:64-76 | on "Enter" with a title that is not blank, appends `{id: counter, title: trimmed title, completed: false}` and increments the counter; otherwise nothing changes; keeps the invariant and keeps all titles trimmed if they were |
| App.TodoStore.RemoveTodo | src/App.tsx:49-51 | replaces the list by the items with other ids; nothing else changes; keeps the invariant |
| App.TodoStore.EditTodo | src/App.tsx:52-54 | replaces the list by its patched copy; nothing else changes; keeps the invariant |
| App.TodoStore.ClearCompleted | src/App.tsx:55-57 | replaces the list by its active items; nothing else changes; keeps the invariant |
| App.TodoStore.ToggleAll | src/App.tsx:58-60 | sets every item's `completed`; nothing else changes; keeps the invariant |
| App.TodoStore.SetEditing | src/App.tsx:61-63 | sets `editingTodoId` and nothing else |
| App.TodoStore.Toggle | src/App.tsx:84-86 | sets `completed` on the item(s) with that id, leaving titles and every other item |
| App.TodoStore.Save | src/App.tsx:77-83 | only when the item is being edited and the trimmed value is not blank, stores the untrimmed value as its title and sets `editingTodoId` to -1, after which no item is being edited; otherwise nothing changes |
| App.TodoStore.DoneEditing | src/App.tsx:87-93 | "Enter" saves, "Escape" sets `editingTodoId` to -1 so that no item is being edited, any other key changes nothing |
| App.TodoStore.LocationHandler | src/App.tsx:94-98 | stores the mode the fragment names and nothing else |
| App.TodoStore.Visible | src/App.tsx:126 | the rendered list is an order-preserving subsequence of the items |
| App.TodoStore.Remaining | src/App.tsx:172 | the footer count equals the length of the active view |

## Left out

- Persistence (src/App.tsx:8-19): reading and writing local storage and the JSON round trip are browser I/O. The constructor takes the already parsed stored state, or `None` when nothing is stored. A stored state need not satisfy the invariant, so the methods do not require it; they promise that a valid store stays valid.
- Solid's reactivity (`createStore`, `produce`, `createEffect`, `createMemo`) and all rendering, CSS classes and labels. The memos are plain functions of the state.
- Registering and removing the `hashchange` listener, and reading `location.hash`. The fragment is a parameter of `LocationHandler`.
- DOM side effects: clearing the input after an add, focusing the edit field, and the list animation.
- Ids and the counter are JavaScript numbers (doubles); the model uses unbounded integers, so the loss of precision above 2^53 is not modelled.
- The `PickRequired` type helper is represented by `TodoPatch` with optional fields. Merging a patch also writes its id, which equals the matched item's id.
- Strings are sequences of Unicode scalar values, while JavaScript strings are UTF-16 code units. Nothing here depends on the difference: every character `trim` removes lies in the Basic Multilingual Plane, and the URL fragment is percent-encoded ASCII.
- Key codes are plain strings compared with "Enter" and "Escape", as `KeyboardEvent.code` values are.
