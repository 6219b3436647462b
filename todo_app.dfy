/** The TodoApp component: it owns the list of todos, the text of the "new todo"
    input and the selected filter, and its handlers replace the list with a
    `map` or `filter` of it. */
module App {
  import opened Wrappers
  import opened Text
  import opened Lists
  import opened TodoList
  import opened Item

  class TodoApp {
    var todos: seq<Todo>
    var newTodo: string
    var filter: FilterType

    /** Mounting: an empty list, an empty input, the `all` filter. */
    constructor ()
      ensures todos == [] && newTodo == [] && filter == All
    {
      todos := [];
      newTodo := [];
      filter := All;
    }

    /** `filteredTodos`: the items the list shows under the selected filter, in list order. */
    function FilteredTodos(): (r: seq<Todo>)
      reads this
      ensures forall t :: t in r <==> t in todos && Shows(filter, t)
      ensures IsSubsequence(r, todos)
      ensures filter == All ==> r == todos
    {
      VisibleIsSubsequence(todos, filter);
      VisibleAll(todos);
      Visible(todos, filter)
    }

    /** `activeTodosCount`: how many items are not completed, which is the length
        of the `active` view; the rest are the `completed` view. */
    function ActiveCount(): (n: nat)
      reads this
      ensures n == |Visible(todos, Active)|
      ensures |todos| - n == |Visible(todos, Completed)|
    {
      ActiveCountIsActiveView(todos);
      ActiveTodosCount(todos)
    }

    /** The load on mount. `parsed` is what reading the stored slot gave: `None`
        when the slot is missing or empty, or when parsing it or mapping over it
        failed; then the list is left as it is. Otherwise the parsed records
        replace the list as they are: nothing checks their ids or texts. */
    method Load(parsed: Option<seq<Todo>>)
      modifies this`todos
      ensures todos == if parsed.Some? then parsed.value else old(todos)
    {
      if parsed.Some? {
        todos := parsed.value;
      }
    }

    /** The input's `onChange`. */
    method SetNewTodo(value: string)
      modifies this`newTodo
      ensures newTodo == value
    {
      newTodo := value;
    }

    /** `addTodo`. `id` stands for `crypto.randomUUID()` and `now` for
        `new Date()`; both are used only when the input is not blank. A blank
        input changes nothing. Otherwise a new, not completed todo with the
        trimmed input goes in front of the old items, which follow in their
        order, and the input is cleared. With a fresh id the list invariant is kept. */
    method AddTodo(id: string, now: int)
      modifies this`todos, this`newTodo
      ensures IsBlank(old(newTodo)) ==> todos == old(todos) && newTodo == old(newTodo)
      ensures !IsBlank(old(newTodo)) ==>
        todos == [Todo(id, Trim(old(newTodo)), false, now)] + old(todos) && newTodo == []
      ensures !IsBlank(old(newTodo)) ==> ValidText(todos[0].text)
      ensures WellFormed(old(todos)) && !HasId(old(todos), id) ==> WellFormed(todos)
    {
      var text := Trim(newTodo);
      if text != [] {
        var todo := Todo(id, text, false, now);
        if WellFormed(todos) && !HasId(todos, id) {
          PrependWellFormed(todos, todo);
        }
        todos := [todo] + todos;
        newTodo := [];
      }
    }

    /** The input's key handler: Enter adds, any other key does nothing. */
    method HandleKeyPress(key: string, id: string, now: int)
      modifies this`todos, this`newTodo
      ensures key != "Enter" ==> todos == old(todos) && newTodo == old(newTodo)
      ensures key == "Enter" && IsBlank(old(newTodo)) ==> todos == old(todos) && newTodo == old(newTodo)
      ensures key == "Enter" && !IsBlank(old(newTodo)) ==>
        todos == [Todo(id, Trim(old(newTodo)), false, now)] + old(todos) && newTodo == []
      ensures WellFormed(old(todos)) && !HasId(old(todos), id) ==> WellFormed(todos)
    {
      if key == "Enter" {
        AddTodo(id, now);
      }
    }

    /** `toggleTodo`. */
    method ToggleTodo(id: string)
      modifies this`todos
      ensures todos == Toggled(old(todos), id)
      ensures WellFormed(old(todos)) ==> WellFormed(todos)
    {
      if WellFormed(todos) {
        ToggledWellFormed(todos, id);
      }
      todos := Toggled(todos, id);
    }

    /** `deleteTodo`. */
    method DeleteTodo(id: string)
      modifies this`todos
      ensures todos == Removed(old(todos), id)
      ensures WellFormed(old(todos)) ==> WellFormed(todos)
    {
      if WellFormed(todos) {
        RemovedWellFormed(todos, id);
      }
      todos := Removed(todos, id);
    }

    /** `editTodo`: a blank new text changes nothing; otherwise the trimmed text
        replaces the text of the items with that id. The list invariant is kept. */
    method EditTodo(id: string, newText: string)
      modifies this`todos
      ensures IsBlank(newText) ==> todos == old(todos)
      ensures !IsBlank(newText) ==> todos == Retexted(old(todos), id, Trim(newText))
      ensures WellFormed(old(todos)) ==> WellFormed(todos)
    {
      var text := Trim(newText);
      if text != [] {
        if WellFormed(todos) {
          RetextedWellFormed(todos, id, text);
        }
        todos := Retexted(todos, id, text);
      }
    }

    /** The filter buttons. */
    method SetFilter(f: FilterType)
      modifies this`filter
      ensures filter == f
    {
      filter := f;
    }

    /** The callbacks every row is given: `onToggle`, `onDelete` and `onEdit`
        are `toggleTodo`, `deleteTodo` and `editTodo`. */
    method Perform(a: Action)
      modifies this`todos
      ensures a.OnToggle? ==> todos == Toggled(old(todos), a.id)
      ensures a.OnDelete? ==> todos == Removed(old(todos), a.id)
      ensures a.OnEdit? ==>
        todos == if IsBlank(a.newText) then old(todos) else Retexted(old(todos), a.id, Trim(a.newText))
      ensures WellFormed(old(todos)) ==> WellFormed(todos)
    {
      match a
      case OnToggle(id) => ToggleTodo(id);
      case OnDelete(id) => DeleteTodo(id);
      case OnEdit(id, newText) => EditTodo(id, newText);
    }
  }

  /** Starting empty, adding "Buy milk" and then "Walk dog" and toggling the
      second gives [Walk dog (completed), Buy milk (active)] under the `all` filter. */
  method BuyMilkWalkDog() returns (app: TodoApp)
    ensures fresh(app)
    ensures app.todos == [Todo("b", "Walk dog", true, 2), Todo("a", "Buy milk", false, 1)]
    ensures app.filter == All
  {
    var milk := Todo("a", "Buy milk", false, 1);
    var dog := Todo("b", "Walk dog", false, 2);
    TrimmedTexts();

    app := new TodoApp();
    app.SetNewTodo("Buy milk");
    app.AddTodo("a", 1);
    app.SetNewTodo("Walk dog");
    app.AddTodo("b", 2);
    assert app.todos == [dog] + [milk];
    app.ToggleTodo("b");
    assert app.todos[0] == dog.(completed := true) && app.todos[1] == milk;
  }

  /** After the scenario above the app shows both items and counts one active
      item; selecting the `completed` filter shows only "Walk dog". */
  method BuyMilkWalkDogShown()
  {
    var app := BuyMilkWalkDog();
    var done, milk := app.todos[0], app.todos[1];
    BuyMilkWalkDogViews(done, milk);
    assert app.FilteredTodos() == [done, milk] && app.ActiveCount() == 1;
    app.SetFilter(Completed);
    assert app.FilteredTodos() == [done];
  }

  lemma TrimmedTexts()
    ensures !IsBlank("Buy milk") && Trim("Buy milk") == "Buy milk"
    ensures !IsBlank("Walk dog") && Trim("Walk dog") == "Walk dog"
  {
    assert IsTrimmed("Buy milk") && IsTrimmed("Walk dog");
    TrimFixesTrimmed("Buy milk");
    TrimFixesTrimmed("Walk dog");
  }

  lemma Singleton(s: seq<Todo>, t: Todo)
    requires |s| == 1 && t in s
    ensures s == [t]
  {
  }

  /** For a completed item before an active one, the views and the active count. */
  lemma BuyMilkWalkDogViews(done: Todo, milk: Todo)
    requires done.completed && !milk.completed
    ensures Visible([done, milk], All) == [done, milk]
    ensures Visible([done, milk], Completed) == [done]
    ensures Visible([done, milk], Active) == [milk]
    ensures ActiveTodosCount([done, milk]) == 1
  {
    var todos := [done, milk];
    VisibleAll(todos);
    ViewsPartition(todos);
    ActiveCountIsActiveView(todos);
    var completed, active := Visible(todos, Completed), Visible(todos, Active);
    assert done in completed && milk in active;
    Singleton(completed, done);
    Singleton(active, milk);
  }
}
