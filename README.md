# To-do state holder, modelled in Dafny

This project models the state holder of a single-screen Android to-do app
(`TodoViewModel`). The holder owns three fields: the task list, the search
query and the completion filter (ALL, ACTIVE or COMPLETED). Five operations
overwrite them: add, toggle, delete, update the query, set the filter. The
list shown on screen is derived from the three fields. It keeps the tasks
that pass the completion filter. If the query is not blank, it then keeps
only the tasks whose title contains the query, ignoring case. The original
order is kept.

Modules:

- `Text` (`text.dfy`): the Kotlin string operations the holder and its
  caller use: `isBlank()`, `trim()` and `contains(q, ignoreCase = true)`.
- `Seqs` (`seqs.dfy`): Kotlin's `filter`, the subsequence relation, and
  lemmas about filtering.
- `Todos` (`todos.dfy`): the `Todo` record, the `TodoFilter` enum, the
  copy-on-write list operations behind add, toggle and delete, the derived
  view `View(todos, query, filter)`, and the properties proved about them.
- `ViewModel` (`view_model.dfy`): the class `TodoViewModel`. It has the three
  fields (the full list is `allTodos`), the five mutators, and
  `FilteredTodos()`, which stands for the published `todos` flow. `Valid()`
  is the class invariant: ids are distinct and positive. The constructor establishes it and every method keeps it. The
  fields are private in the source, so nothing else can break it.
- `Int32Ids` (`int32_ids.dfy`): the id computation with Kotlin's 32-bit `Int`
  wrap-around (see Findings).

Two points of the source's behaviour are easy to misread:

- `addTask` accepts any title, blank ones included. Only the screen's add
  button skips blank text, and it passes the trimmed text
  (ui/TodoScreen.kt:56-57). `AddTask` models the first, and `Submit` models
  the button.
- Ids are not monotonic. The new id is the largest live id plus one, so
  after the task with the largest id m is deleted, the next add gets an id
  no greater than m, and m itself again when m - 1 is still present
  (`IdReusedAfterDeletingMax`).

## Model

| member | source | states |
|---|---|---|
| Todos.MaxId | app/src/main/java/com/example/todoapp/viewmodel/TodoViewModel.kt:52 | `maxOfOrNull { it.id }`: none exactly for the empty list; otherwise an id present in the list and at least every id |
| Todos.NextId | app/src/main/java/com/example/todoapp/viewmodel/TodoViewModel.kt:52 | the new id is greater than every existing id; it is 1 for an empty list, otherwise one above an id in the list (so exactly max + 1) |
| Todos.WithTask | app/src/main/java/com/example/todoapp/viewmodel/TodoViewModel.kt:51-55 | adding appends exactly one task: length + 1, earlier tasks unchanged in place, new task has the given title, is not done, has an id above all others; distinct ids stay distinct |
| Todos.Toggled | app/src/main/java/com/example/todoapp/viewmodel/TodoViewModel.kt:56-60 | toggling keeps length, order, ids and titles, and flips `isDone` on exactly the tasks whose id matches |
| Todos.ToggledTwice | app/src/main/java/com/example/todoapp/viewmodel/TodoViewModel.kt:56-60 | toggling the same id twice restores the original list |
| Todos.ToggledAbsent | app/src/main/java/com/example/todoapp/viewmodel/TodoViewModel.kt:56-60 | toggling an id no task has leaves the list unchanged |
| Todos.ToggledKeepsUniqueIds | app/src/main/java/com/example/todoapp/viewmodel/TodoViewModel.kt:56-60 | toggling keeps ids distinct |
| Todos.Deleted | app/src/main/java/com/example/todoapp/viewmodel/TodoViewModel.kt:61-63 | `filterNot { it.id == id }`: a task survives exactly when it was present and has another id; no task with that id remains |
| Todos.DeletedIsSubsequence | app/src/main/java/com/example/todoapp/viewmodel/TodoViewModel.kt:61-63 | the remaining tasks keep their original relative order |
| Todos.DeletedAbsent | app/src/main/java/com/example/todoapp/viewmodel/TodoViewModel.kt:61-63 | deleting an absent id leaves the list unchanged |
| Todos.DeletedPresent | app/src/main/java/com/example/todoapp/viewmodel/TodoViewModel.kt:61-63 | with distinct ids, deleting the id at position k yields the list without position k, one shorter |
| Todos.FilterKeepsUniqueIds | app/src/main/java/com/example/todoapp/viewmodel/TodoViewModel.kt:61-63 | filtering, and so deleting, keeps ids distinct |
| Todos.IdReusedAfterDeletingMax | app/src/main/java/com/example/todoapp/viewmodel/TodoViewModel.kt:51-63 | with positive ids, after deleting the task with the largest id, the next id is no greater than the deleted one, and equals it when the id just below is still present: ids are unique but not monotonic |
| Todos.ByCompletion | app/src/main/java/com/example/todoapp/viewmodel/TodoViewModel.kt:31-35 | ALL returns the list unchanged; otherwise a task is kept exactly when ACTIVE and not done, or COMPLETED and done |
| Todos.BySearch | app/src/main/java/com/example/todoapp/viewmodel/TodoViewModel.kt:38-43 | a blank query returns the list unchanged; otherwise a task is kept exactly when its title contains the query, ignoring case, with the query untrimmed |
| Todos.View | app/src/main/java/com/example/todoapp/viewmodel/TodoViewModel.kt:27-44 | the published list is never longer than the task list, and a task is shown exactly when it is in the list, passes the filter (ALL: always, ACTIVE: not done, COMPLETED: done) and the query is blank or its title contains the query ignoring case |
| Todos.ViewIsFilter | app/src/main/java/com/example/todoapp/viewmodel/TodoViewModel.kt:27-44 | the two-step view (completion, then search) equals one filter by "passes the completion filter and matches the query" |
| Todos.ViewIsSubsequence | app/src/main/java/com/example/todoapp/viewmodel/TodoViewModel.kt:27-44 | the view is a subsequence of the task list, in original order, never longer |
| Todos.ViewBlankQuery | app/src/main/java/com/example/todoapp/viewmodel/TodoViewModel.kt:38-39 | a blank query makes the search step the identity; ALL with a blank query shows the whole list |
| Todos.ViewPartition | app/src/main/java/com/example/todoapp/viewmodel/TodoViewModel.kt:31-35 | for any query, the ACTIVE and COMPLETED views are disjoint and together hold exactly the tasks of the ALL view |
| Todos.ExampleToggleThenActive | app/src/main/java/com/example/todoapp/viewmodel/TodoViewModel.kt:31-60 | one open task is shown under ALL; toggling it marks it done; it then disappears under ACTIVE |
| Todos.ExampleQueryNotTrimmed | app/src/main/java/com/example/todoapp/viewmodel/TodoViewModel.kt:38-43 | the query is not trimmed ("milk " misses "milk") and case is ignored ("mILK" finds "Milk") |
| Seqs.Filter | app/src/main/java/com/example/todoapp/viewmodel/TodoViewModel.kt:33-34 | Kotlin's `filter`: never longer than its input, keeps exactly the elements the predicate accepts |
| Text.ContainsIgnoreCaseIsFoldedOccurs | app/src/main/java/com/example/todoapp/viewmodel/TodoViewModel.kt:42 | `contains(query, ignoreCase = true)` holds exactly when the case-folded query occurs in the case-folded title |
| Text.IsBlank | app/src/main/java/com/example/todoapp/viewmodel/TodoViewModel.kt:38 | `isBlank()`: the text is empty or consists of whitespace only |
| Text.ContainsIgnoreCase | app/src/main/java/com/example/todoapp/viewmodel/TodoViewModel.kt:42 | `contains(query, ignoreCase = true)`: at some offset of the title, every character of the query equals the title's character up to case |
| Text.Trim | app/src/main/java/com/example/todoapp/ui/TodoScreen.kt:56-57 | `trim()` returns a slice `s[i..j]` with only whitespace before `i` and from `j` on; it is empty exactly for blank text and otherwise neither starts nor ends with whitespace |
| ViewModel.TodoViewModel.constructor | app/src/main/java/com/example/todoapp/viewmodel/TodoViewModel.kt:19-21 | the holder starts with no tasks, an empty query and filter ALL |
| ViewModel.TodoViewModel.FilteredTodos | app/src/main/java/com/example/todoapp/viewmodel/TodoViewModel.kt:27-44 | the published list is a subsequence of the task list holding exactly the tasks that pass the current filter and query |
| ViewModel.TodoViewModel.AddTask | app/src/main/java/com/example/todoapp/viewmodel/TodoViewModel.kt:51-55 | appends one open task with id max + 1 (1 if empty), leaves earlier tasks, query and filter unchanged, keeps ids distinct |
| ViewModel.TodoViewModel.ToggleTask | app/src/main/java/com/example/todoapp/viewmodel/TodoViewModel.kt:56-60 | replaces the list by its toggled copy (no-op for an unknown id), leaves query and filter, keeps ids distinct |
| ViewModel.TodoViewModel.DeleteTask | app/src/main/java/com/example/todoapp/viewmodel/TodoViewModel.kt:61-63 | removes the tasks with the id keeping order; no-op for an absent id, one shorter for a present one; query and filter unchanged |
| ViewModel.TodoViewModel.UpdateSearchQuery | app/src/main/java/com/example/todoapp/viewmodel/TodoViewModel.kt:65-67 | changes only the query |
| ViewModel.TodoViewModel.SetFilter | app/src/main/java/com/example/todoapp/viewmodel/TodoViewModel.kt:69-71 | changes only the filter |
| ViewModel.TodoViewModel.Submit | app/src/main/java/com/example/todoapp/ui/TodoScreen.kt:55-59 | the add button adds exactly when the text is not blank, and then adds the trimmed, non-empty text; otherwise the list is unchanged |
| Int32Ids.NextIdWrapped | app/src/main/java/com/example/todoapp/viewmodel/TodoViewModel.kt:52 | the id as written, with 32-bit `Int` arithmetic: always in the `Int` range; equal to the unbounded id while every id is below 2^31 - 1; -2^31 once the largest id is 2^31 - 1 |
| Int32Ids.WithTaskWrapped | app/src/main/java/com/example/todoapp/viewmodel/TodoViewModel.kt:51-55 | adding as written appends exactly one task, earlier tasks unchanged in place, the new task open with the given title and the wrapped id |
| Int32Ids.WrappedIdCollides | app/src/main/java/com/example/todoapp/viewmodel/TodoViewModel.kt:52-54 | starting from a task with id 2^31 - 1, two adds give two tasks the same id -2^31 |

## Left out

- The source of the `Todo` class is not available; its fields are taken from their use. The default `isDone = false` at the constructor call (line 53) is assumed, not derived.
- Kotlin coroutines and flows (`MutableStateFlow`, `combine`, `stateIn`, `viewModelScope`, the 5-second subscription window) are not modelled. The published list is recomputed from the current fields by `FilteredTodos`. The transient `emptyList()` shown before the first emission is not modelled.
- Unicode: `isBlank()`/`trim()` treat only space, tab, newline and carriage return as whitespace. Case-insensitive matching folds only ASCII `A`-`Z`. The JVM's full Unicode tables are not modelled.
- ViewModel.TodoViewModel.AddTask: ids are unbounded integers. Kotlin's 32-bit wrap-around is modelled separately in `Int32Ids` (see Findings).
- The Android `ViewModel` lifecycle and the framework-managed instance ownership are not modelled.
- The Compose screen is not modelled except for its add-button guard (`Submit`). Layout, text fields, the list widget, and clearing the entry field after a submit are not modelled.

## Findings

| source | as written | input that shows it | evidently intended | confidence | as-written member | corrected member |
|---|---|---|---|---|---|---|
| app/src/main/java/com/example/todoapp/viewmodel/TodoViewModel.kt:52 | `(maxOfOrNull { it.id } ?: 0) + 1` on Kotlin `Int` wraps to -2^31 after 2^31 - 1 | a list whose largest id is 2147483647, then two `addTask` calls: both new tasks get id -2147483648 | every new id differs from all live ids | not executed; reaching that id takes 2^31 - 1 additions, so the practical impact is low | Int32Ids.WrappedIdCollides | Todos.WithTask |
