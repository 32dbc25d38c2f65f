# To-do list store

A model of the list store behind a single-screen iOS to-do app. The store is the view model
`TodoListViewModel`. It owns an ordered list of `TodoItem` entries, newest first. It adds an
entry at the front, removes a set of row positions in one step, and has one row's completion flag
flipped through a binding. At launch it loads the list from the platform's key-value store
(`UserDefaults`, key `todosDataKey`), or starts from a fixed two-entry sample. After every change
an auto-save subscription writes the whole list back to that key. As wired, each such write holds
the list from before the change (see Findings). The operations of the model use the corrected
save, which writes the list after the change; `AddTodoAsWritten` and `PublishAsWritten` keep the
behaviour as written.

Modules:

- `Items` (`todo_item.dfy`): the entry value type, the flag flip, ids and their distinctness.
- `ListOps` (`list_ops.dfy`): removal at a set of offsets and the row toggle, as functions on
  sequences, with the lemmas about them.
- `Storage` (`storage.dfy`): the persisted slot, the abstract JSON codec, the sample list and the
  load-or-fallback rule.
- `ViewModel` (`todo_list_view_model.dfy`): the `TodoListViewModel` class. Its field `todos` is
  changed in place by each operation. A ghost log `saveAttempts` records every write attempt.

Foreign calls are parameters:

- `UUID()` is an id passed in by the caller. Freshness is a hypothesis of the id-uniqueness
  properties.
- Whether `JSONEncoder` succeeds is the `encodeOk` argument.
- What `JSONDecoder` makes of the stored bytes is the `Blob` value kept in the store: a list, or
  `Unreadable`.
- The Combine auto-save subscription is an explicit save at the end of each mutating method.

Facts about the code that shape the model:

- The sample titles are the Korean strings at TodoListApp/TodoListViewModel.swift:59-60.
- `remove(atOffsets:)` traps on an offset past the end, so `DeleteTodo` requires in-range offsets.
- The row toggle is positional, through the binding into the list; there is no toggle by id and
  no reorder operation.
- The entry type `Items.TodoItem` models TodoListApp/TodoItem.swift:4-12; its equality is stated
  by `Items.ItemEqualityIsFieldwise`.

## Model

| member | source | states |
|---|---|---|
| `Items.Toggled` | TodoListApp/TodoRowView.swift:17 | flipping an entry changes only `isCompleted`; id and title are kept and the result differs from the input |
| `Items.ToggledTwice` | TodoListApp/TodoRowView.swift:17 | flipping twice restores the entry |
| `Items.ItemEqualityIsFieldwise` | TodoListApp/TodoItem.swift:4-12 | two entries are equal iff id, title and flag are all equal |
| `Items.PrependDistinctIds` | TodoListApp/TodoListViewModel.swift:27-29 | prepending keeps ids distinct iff the list had distinct ids and the new id is not among them (both directions) |
| `ListOps.RemainingFrom` | TodoListApp/TodoListViewModel.swift:37 | what remains of the list from position i on is no longer than that part and holds no element it did not have (sub-multiset) |
| `ListOps.RemoveAtOffsets` | TodoListApp/TodoListViewModel.swift:37 | a removal never grows the list and adds or duplicates nothing (sub-multiset of the original) |
| `ListOps.Survivors` | TodoListApp/TodoListViewModel.swift:37 | the surviving positions are strictly increasing, all in range and not removed, and include every in-range position that is not removed |
| `ListOps.RemainingFromSelects` | TodoListApp/TodoListViewModel.swift:37 | what remains from position i on is the list read at the surviving positions, in order |
| `ListOps.RemoveAtOffsetsSelects` | TodoListApp/TodoListViewModel.swift:37 | removal keeps exactly the elements whose original position is not an offset, in their original relative order |
| `ListOps.SurvivorsCount` | TodoListApp/TodoListViewModel.swift:37 | the number of survivors in [i, n) is the width minus the offsets at or after i |
| `ListOps.RemoveAtOffsetsLength` | TodoListApp/TodoListViewModel.swift:36-38 | with every offset in range, the new length is the old length minus the number of offsets |
| `ListOps.RemoveFirstAndLastOfThree` | TodoListApp/TodoListViewModel.swift:37 | `[A, B, C]` without offsets `{0, 2}` is `[B]`; offsets are not shifted during removal |
| `ListOps.IdsOfRemoved` | TodoListApp/TodoItem.swift:6 | removal leaves kept entries untouched: the ids afterwards are the old ids with the same positions removed |
| `ListOps.RemovePreservesDistinctIds` | TodoListApp/TodoListViewModel.swift:37 | removal keeps ids distinct |
| `ListOps.ToggledAt` | TodoListApp/ContentView.swift:40-41 | toggling row i flips only that row's flag; its id and title, every other row and the length stay |
| `ListOps.ToggledAtTwice` | TodoListApp/TodoRowView.swift:17 | toggling the same row twice restores the list |
| `ListOps.ToggledAtKeepsIds` | TodoListApp/TodoItem.swift:6 | toggling keeps the id sequence, so distinctness of ids is unchanged |
| `Storage.Encode` | TodoListApp/TodoListViewModel.swift:43-44 | decoding the encoding of a list gives back the list, with every id, title and flag |
| `Storage.Decode` | TodoListApp/TodoListViewModel.swift:54 | decoding fails exactly on data that is not the encoding of a list |
| `Storage.Saved` | TodoListApp/TodoListViewModel.swift:42-47 | a save writes the whole list under the key; an encoding failure leaves the store unchanged; no other key changes |
| `Storage.Seed` | TodoListApp/TodoListViewModel.swift:58-61 | the sample list's ids are the two fresh ids in order, and they are distinct iff the two fresh ids differ |
| `Storage.SeedShape` | TodoListApp/TodoListViewModel.swift:58-61 | the sample list has two entries with the fixed titles, the first not completed, the second completed |
| `Storage.Loaded` | TodoListApp/TodoListViewModel.swift:53-61 | the list a launch starts with is the sample list or exactly the list the key decodes to |
| `Storage.LoadFallsBackToSeed` | TodoListApp/TodoListViewModel.swift:53-61 | a missing key or an undecodable value gives the sample list |
| `Storage.LoadAfterSaveRestores` | TodoListApp/TodoListViewModel.swift:44-55 | a successful save followed by a load gives back exactly the saved list |
| `Storage.LoadFromPersisted` | TodoListApp/TodoListViewModel.swift:53-55 | when the slot decodes to a list, loading gives that list |
| `Storage.LoadedDistinctIds` | TodoListApp/TodoListViewModel.swift:53-61 | loading gives distinct ids if the stored list, when used, had them, and the two fresh ids differ when the sample is used |
| `ViewModel.UserDefaults.constructor` | TodoListApp/TodoListViewModel.swift:45-53 | the key-value store holds the given values |
| `ViewModel.TodoListViewModel.constructor` | TodoListApp/TodoListViewModel.swift:18-20 | creating the store loads the list, saves it once and leaves it persisted when encoding succeeds |
| `ViewModel.TodoListViewModel.LoadTodos` | TodoListApp/TodoListViewModel.swift:51-71 | the list becomes the stored list or the sample; the subscription's first delivery makes exactly one save of that list |
| `ViewModel.TodoListViewModel.SaveTodos` | TodoListApp/TodoListViewModel.swift:42-47 | one write attempt of the current list; on success the slot holds exactly that list |
| `ViewModel.TodoListViewModel.Publish` | TodoListApp/TodoListViewModel.swift:65-70 | corrected auto-save: after a change, exactly one write attempt, holding the list after the change |
| `ViewModel.TodoListViewModel.PublishAsWritten` | TodoListApp/TodoListViewModel.swift:65-70 | auto-save as wired: the one write attempt holds the list before the change |
| `ViewModel.TodoListViewModel.AddTodo` | TodoListApp/TodoListViewModel.swift:24-31 | a non-empty title adds one entry at index 0, not completed, with the old list as the tail, and saves the new list (corrected auto-save, see Findings); an empty title, and only the empty string, changes and saves nothing; a fresh id keeps ids distinct |
| `ViewModel.TodoListViewModel.AddTodoAsWritten` | TodoListApp/TodoListViewModel.swift:24-31 | the add with the auto-save as wired: its one write attempt holds the list before the addition; after a successful encode every relaunch gives back that earlier list, never the current one |
| `ViewModel.TodoListViewModel.DeleteTodo` | TodoListApp/TodoListViewModel.swift:36-38 | with in-range offsets, the list loses exactly those positions and shrinks by their number; ids stay distinct; one save of the new list (corrected auto-save, see Findings), also when no offset is given |
| `ViewModel.TodoListViewModel.ToggleTodo` | TodoListApp/ContentView.swift:40-41 | one row's flag flips, ids are kept, and one save of the new list (corrected auto-save, see Findings) |
| `ViewModel.AsWrittenRelaunchLosesAddedTodo` | TodoListApp/TodoListViewModel.swift:65-70 | a slot that holds the list from before an add reloads to exactly that list, never to the list with the new entry |

## Left out

- SwiftUI views, layout and the app entry point: they are presentation only. The row toggle is kept as `ToggleTodo`.
- The add button's `.disabled` guard on an empty field: it duplicates the empty-title check in `AddTodo`.
- The byte-level JSON format and `UserDefaults` internals: a value under the key is either an encoded list or `Unreadable`. The lossless round trip of the synthesised `Codable` conformance over `UUID`, `String` and `Bool` is assumed as a property of this abstract codec (`Storage.Encode` builds the encoded value directly), not proved about JSON.
- The randomness of `UUID()`: ids are parameters. Distinct-id results assume the caller passes fresh ids.
- Combine's `@Published`, `sink`, `[weak self]` and `cancellables`: replaced by an explicit save call. The model has no "not yet subscribed" state, because the subscription is set up in the constructor before any other operation can run.
- The `todos = []` initial value: it is overwritten by the load in the constructor before anything observes it.
- Change notifications to the view layer: no observable effect on the list or the store.
- Canonical equivalence of titles: Swift compares `String` values by Unicode canonical equivalence, while the model compares titles as sequences of scalars. So a precomposed "é" and "e" followed by U+0301 are equal titles in the source and different ones here. No store operation compares entries, and the empty-title check `isEmpty` agrees with `title == ""`.
- `ViewModel.TodoListViewModel.ToggleTodo`: it works by row position, as the binding does. A toggle by id that ignores unknown ids is not in the code.

## Findings

| source | as written | input that shows it | evidently intended | confidence | as-written member | corrected member |
|---|---|---|---|---|---|---|
| TodoListApp/TodoListViewModel.swift:65-70 | `@Published` delivers each change to the sink before the property is updated. The sink ignores the delivered value and calls `saveTodos()`, which encodes the property. So every save that a change triggers writes the list as it was before the change. (The first save, when the subscription starts, writes the loaded list itself.) | `addTodo(title: "x")` on a list with no entry titled "x", then relaunch: the loaded list is the list from before the add, without the new entry, so it has no "x" | every save writes the list after the change, so the slot always equals `todos` | high (the documented `willSet` timing of `@Published`); not executed | `ViewModel.TodoListViewModel.PublishAsWritten`, `ViewModel.TodoListViewModel.AddTodoAsWritten`, `ViewModel.AsWrittenRelaunchLosesAddedTodo` | `ViewModel.TodoListViewModel.Publish`, `ViewModel.TodoListViewModel.AddTodo`, `ViewModel.TodoListViewModel.DeleteTodo`, `ViewModel.TodoListViewModel.ToggleTodo`, `Storage.LoadAfterSaveRestores` |
