/**
 The list store: the view model that owns the ordered list of entries,
 changes it in place and writes the whole list to the key-value store after
 every change. The reactive auto-save subscription is replaced by an
 explicit save at the end of each mutating method.
 */
module ViewModel {
  import opened Items
  import opened ListOps
  import opened Storage

  /** The platform's key-value store; only the values it holds are modelled. */
  class UserDefaults {
    var data: map<string, Blob>

    constructor (data: map<string, Blob>)
      ensures this.data == data
    {
      this.data := data;
    }
  }

  class TodoListViewModel {
    /** The entries shown, newest first. */
    var todos: seq<TodoItem>
    /** The store the list is persisted to. */
    const defaults: UserDefaults
    /** Every save attempt so far, oldest first: the list each one encoded. */
    ghost var saveAttempts: seq<seq<TodoItem>>

    /** The persisted slot holds exactly the current list. */
    ghost predicate Persisted()
      reads this, defaults
    {
      TodosDataKey in defaults.data && Decode(defaults.data[TodosDataKey]) == Some(todos)
    }

    /** Creating the store loads the list. `seedIds` stand for the two UUIDs
        generated for the sample list; `encodeOk` is the outcome of the
        encoder on the first save. */
    constructor (defaults: UserDefaults, seedIds: (Uuid, Uuid), encodeOk: bool)
      modifies defaults
      ensures this.defaults == defaults
      ensures todos == Loaded(old(defaults.data), seedIds.0, seedIds.1)
      ensures defaults.data == Saved(old(defaults.data), todos, encodeOk)
      ensures saveAttempts == [todos]
      ensures encodeOk ==> Persisted()
    {
      this.defaults := defaults;
      todos := [];
      saveAttempts := [];
      new;
      LoadTodos(seedIds, encodeOk);
    }

    /** Replaces the list by the stored one, or by the sample list when the key
        is missing or its value does not decode. Establishing the auto-save
        subscription saves once immediately, because the subscription is handed
        the current value when it starts. */
    method LoadTodos(seedIds: (Uuid, Uuid), encodeOk: bool)
      modifies this, defaults
      ensures todos == Loaded(old(defaults.data), seedIds.0, seedIds.1)
      ensures defaults.data == Saved(old(defaults.data), todos, encodeOk)
      ensures saveAttempts == old(saveAttempts) + [todos]
      ensures encodeOk ==> Persisted()
    {
      if TodosDataKey in defaults.data && Decode(defaults.data[TodosDataKey]).Some? {
        todos := Decode(defaults.data[TodosDataKey]).value;
      } else {
        todos := Seed(seedIds.0, seedIds.1);
      }
      SaveTodos(encodeOk);
    }

    /** Writes the whole current list under the key; an encoding failure is
        swallowed and leaves the store unchanged. */
    method SaveTodos(encodeOk: bool)
      modifies defaults, this`saveAttempts
      ensures defaults.data == Saved(old(defaults.data), todos, encodeOk)
      ensures saveAttempts == old(saveAttempts) + [todos]
      ensures encodeOk ==> Persisted()
    {
      if encodeOk {
        defaults.data := defaults.data[TodosDataKey := Encode(todos)];
      }
      saveAttempts := saveAttempts + [todos];
    }

    /** One change of the list followed by its auto-save, saving the new list:
        exactly one write attempt, holding the list after the change. */
    method Publish(newTodos: seq<TodoItem>, encodeOk: bool)
      modifies this, defaults
      ensures todos == newTodos
      ensures defaults.data == Saved(old(defaults.data), newTodos, encodeOk)
      ensures saveAttempts == old(saveAttempts) + [newTodos]
      ensures encodeOk ==> Persisted()
    {
      todos := newTodos;
      SaveTodos(encodeOk);
    }

    /** One change of the list followed by its auto-save as the subscription
        is wired: the publisher announces the change before the property is
        stored, and the subscriber ignores the announced value and encodes
        the property, so what is written is the list BEFORE the change. */
    method PublishAsWritten(newTodos: seq<TodoItem>, encodeOk: bool)
      modifies this, defaults
      ensures todos == newTodos
      ensures defaults.data == Saved(old(defaults.data), old(todos), encodeOk)
      ensures saveAttempts == old(saveAttempts) + [old(todos)]
    {
      SaveTodos(encodeOk);
      todos := newTodos;
    }

    /** Adds an entry titled `title` at the front, not completed, with the
        freshly generated id `newId`. Only the exact empty string is
        rejected, and then nothing changes and nothing is saved. */
    method AddTodo(title: string, newId: Uuid, encodeOk: bool)
      modifies this, defaults
      ensures title == "" ==> todos == old(todos) && defaults.data == old(defaults.data)
      ensures title == "" ==> saveAttempts == old(saveAttempts)
      ensures title != "" ==> |todos| == |old(todos)| + 1
      ensures title != "" ==> todos[0] == TodoItem(newId, title, false) && todos[1..] == old(todos)
      ensures title != "" ==> defaults.data == Saved(old(defaults.data), todos, encodeOk)
      ensures title != "" ==> saveAttempts == old(saveAttempts) + [todos]
      ensures title != "" && encodeOk ==> Persisted()
      ensures DistinctIds(old(todos)) && newId !in Ids(old(todos)) ==> DistinctIds(todos)
    {
      if title != "" {
        var newTodo := TodoItem(newId, title, false);
        PrependDistinctIds(newTodo, todos);
        Publish([newTodo] + todos, encodeOk);
      }
    }

    /** `AddTodo` with the auto-save wired as written: when a non-empty
        title is added and encoding succeeds, the slot holds the list from
        before the addition, not the current list. */
    method AddTodoAsWritten(title: string, newId: Uuid, encodeOk: bool)
      modifies this, defaults
      ensures title == "" ==> todos == old(todos) && defaults.data == old(defaults.data)
      ensures title == "" ==> saveAttempts == old(saveAttempts)
      ensures title != "" ==> todos == [TodoItem(newId, title, false)] + old(todos)
      ensures title != "" ==> defaults.data == Saved(old(defaults.data), old(todos), encodeOk)
      ensures title != "" ==> saveAttempts == old(saveAttempts) + [old(todos)]
      ensures title != "" && encodeOk ==> !Persisted()
      ensures title != "" && encodeOk ==>
                forall firstId, secondId :: Loaded(defaults.data, firstId, secondId) == old(todos)
      ensures title != "" && encodeOk ==>
                forall firstId, secondId :: Loaded(defaults.data, firstId, secondId) != todos
    {
      if title != "" {
        var newTodo := TodoItem(newId, title, false);
        PublishAsWritten([newTodo] + todos, encodeOk);
        if encodeOk {
          forall firstId, secondId ensures Loaded(defaults.data, firstId, secondId) != todos {
            AsWrittenRelaunchLosesAddedTodo(old(defaults.data), old(todos), title, newId, firstId, secondId);
          }
        }
      }
    }

    /** Removes the entries at `offsets`, all taken against the list before
        the removal. An offset past the end traps in `remove(atOffsets:)`,
        hence the precondition. The removal always triggers a save, even when
        `offsets` is empty. */
    method DeleteTodo(offsets: set<nat>, encodeOk: bool)
      requires OffsetsInRange(offsets, |todos|)
      modifies this, defaults
      ensures todos == RemoveAtOffsets(old(todos), offsets)
      ensures |todos| == |old(todos)| - |offsets|
      ensures Ids(todos) == RemoveAtOffsets(Ids(old(todos)), offsets)
      ensures DistinctIds(old(todos)) ==> DistinctIds(todos)
      ensures defaults.data == Saved(old(defaults.data), todos, encodeOk)
      ensures saveAttempts == old(saveAttempts) + [todos]
      ensures encodeOk ==> Persisted()
    {
      RemoveAtOffsetsLength(todos, offsets);
      IdsOfRemoved(todos, offsets);
      if DistinctIds(todos) {
        RemovePreservesDistinctIds(todos, offsets);
      }
      Publish(RemoveAtOffsets(todos, offsets), encodeOk);
    }

    /** Flips the completion flag of the row at `index`, as the row's checkbox
        does through its binding into the list; the binding exists only for
        rows of the list. */
    method ToggleTodo(index: nat, encodeOk: bool)
      requires index < |todos|
      modifies this, defaults
      ensures todos == ToggledAt(old(todos), index)
      ensures Ids(todos) == Ids(old(todos))
      ensures DistinctIds(todos) <==> DistinctIds(old(todos))
      ensures defaults.data == Saved(old(defaults.data), todos, encodeOk)
      ensures saveAttempts == old(saveAttempts) + [todos]
      ensures encodeOk ==> Persisted()
    {
      ToggledAtKeepsIds(todos, index);
      Publish(ToggledAt(todos, index), encodeOk);
    }
  }

  /** With the save wired as written, adding an entry and then
      relaunching shows the list from before the addition, hence not the
      list with the new entry. */
  lemma AsWrittenRelaunchLosesAddedTodo(data: map<string, Blob>, before: seq<TodoItem>,
                                        title: string, newId: Uuid, firstId: Uuid, secondId: Uuid)
    ensures Loaded(Saved(data, before, true), firstId, secondId) == before
    ensures Loaded(Saved(data, before, true), firstId, secondId) != [TodoItem(newId, title, false)] + before
  {
    LoadAfterSaveRestores(data, before, firstId, secondId);
    assert |[TodoItem(newId, title, false)] + before| == |before| + 1;
  }
}
