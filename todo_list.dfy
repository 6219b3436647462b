/** The todo records and the pure computations behind TodoApp's handlers and
    views: each mutation of the list is a `map` or a `filter` over it. */
module TodoList {
  import opened Text
  import opened Lists

  /** One todo. `createdAt` is the creation instant, in milliseconds since the epoch. */
  datatype Todo = Todo(id: string, text: string, completed: bool, createdAt: int)

  /** The view selector of the list. */
  datatype FilterType = All | Active | Completed

  predicate HasId(todos: seq<Todo>, id: string) {
    exists t :: t in todos && t.id == id
  }

  predicate DistinctIds(todos: seq<Todo>) {
    forall i, j :: 0 <= i < j < |todos| ==> todos[i].id != todos[j].id
  }

  /** The texts the handlers store: non-empty and trimmed. */
  predicate ValidText(text: string) {
    text != [] && IsTrimmed(text)
  }

  /** The list invariant the handlers keep: ids are pairwise distinct and every text is valid. */
  predicate WellFormed(todos: seq<Todo>) {
    DistinctIds(todos) && forall t :: t in todos ==> ValidText(t.text)
  }

  /** The new list computed by `toggleTodo(id)`: same items in the same order,
      `completed` flipped exactly on the items whose id is `id`, nothing else changed. */
  function Toggled(todos: seq<Todo>, id: string): (r: seq<Todo>)
    ensures |r| == |todos|
    ensures forall i :: 0 <= i < |todos| ==>
      r[i].id == todos[i].id && r[i].text == todos[i].text && r[i].createdAt == todos[i].createdAt
    ensures forall i :: 0 <= i < |todos| ==> (r[i].completed != todos[i].completed <==> todos[i].id == id)
  {
    Map(todos, (t: Todo) => if t.id == id then t.(completed := !t.completed) else t)
  }

  /** The new list computed by `editTodo(id, ...)` once the trimmed text `text` is
      known to be non-empty: same items in the same order, `text` replaced exactly
      on the items whose id is `id`, nothing else changed. */
  function Retexted(todos: seq<Todo>, id: string, text: string): (r: seq<Todo>)
    ensures |r| == |todos|
    ensures forall i :: 0 <= i < |todos| ==>
      r[i].id == todos[i].id && r[i].completed == todos[i].completed && r[i].createdAt == todos[i].createdAt
    ensures forall i :: 0 <= i < |todos| ==> r[i].text == (if todos[i].id == id then text else todos[i].text)
  {
    Map(todos, (t: Todo) => if t.id == id then t.(text := text) else t)
  }

  /** The new list computed by `deleteTodo(id)`: no item with id `id` is left,
      every other item is kept, and nothing new appears. */
  function Removed(todos: seq<Todo>, id: string): (r: seq<Todo>)
    ensures !HasId(r, id)
    ensures forall t :: t in todos && t.id != id ==> t in r
    ensures forall t :: t in r ==> t in todos
  {
    Filter(todos, (t: Todo) => t.id != id)
  }

  /** Whether the item `t` is listed under `filter` (the callback of `filteredTodos`). */
  predicate Shows(filter: FilterType, t: Todo) {
    match filter
    case Active => !t.completed
    case Completed => t.completed
    case All => true
  }

  /** `filteredTodos`: the items listed under `filter`, and only those. */
  function Visible(todos: seq<Todo>, filter: FilterType): (r: seq<Todo>)
    ensures forall t :: t in r <==> t in todos && Shows(filter, t)
  {
    Filter(todos, (t: Todo) => Shows(filter, t))
  }

  /** `activeTodosCount`: the length of the list of items not completed. */
  function ActiveTodosCount(todos: seq<Todo>): (n: nat)
    ensures n <= |todos|
  {
    |Filter(todos, (t: Todo) => !t.completed)|
  }

  // ----- toggle -----

  /** Toggling an id that no item has changes nothing. */
  lemma ToggledAbsent(todos: seq<Todo>, id: string)
    requires !HasId(todos, id)
    ensures Toggled(todos, id) == todos
  {
    var r := Toggled(todos, id);
    forall i | 0 <= i < |todos| ensures r[i] == todos[i] {
      assert todos[i] in todos;
    }
  }

  /** Toggling the same id twice restores the list. */
  lemma ToggledTwice(todos: seq<Todo>, id: string)
    ensures Toggled(Toggled(todos, id), id) == todos
  {
    var r := Toggled(Toggled(todos, id), id);
    forall i | 0 <= i < |todos| ensures r[i] == todos[i] {
    }
  }

  /** Toggling keeps the list invariant. */
  lemma ToggledWellFormed(todos: seq<Todo>, id: string)
    requires WellFormed(todos)
    ensures WellFormed(Toggled(todos, id))
  {
    var r := Toggled(todos, id);
    forall t | t in r ensures ValidText(t.text) {
      var i :| 0 <= i < |r| && r[i] == t;
      assert todos[i] in todos;
    }
  }

  // ----- edit -----

  /** Editing an id that no item has changes nothing. */
  lemma RetextedAbsent(todos: seq<Todo>, id: string, text: string)
    requires !HasId(todos, id)
    ensures Retexted(todos, id, text) == todos
  {
    var r := Retexted(todos, id, text);
    forall i | 0 <= i < |todos| ensures r[i] == todos[i] {
      assert todos[i] in todos;
    }
  }

  /** Storing the same text twice is storing it once. */
  lemma RetextedTwice(todos: seq<Todo>, id: string, text: string)
    ensures Retexted(Retexted(todos, id, text), id, text) == Retexted(todos, id, text)
  {
  }

  /** Storing a valid text keeps the list invariant. */
  lemma RetextedWellFormed(todos: seq<Todo>, id: string, text: string)
    requires WellFormed(todos) && ValidText(text)
    ensures WellFormed(Retexted(todos, id, text))
  {
    var r := Retexted(todos, id, text);
    forall t | t in r ensures ValidText(t.text) {
      var i :| 0 <= i < |r| && r[i] == t;
      assert todos[i] in todos;
    }
  }

  // ----- delete -----

  /** Deleting keeps the surviving items in their original relative order. */
  lemma RemovedIsSubsequence(todos: seq<Todo>, id: string)
    ensures IsSubsequence(Removed(todos, id), todos)
  {
    FilterIsSubsequence(todos, (t: Todo) => t.id != id);
  }

  /** Deleting removes exactly the items with that id: what is left, together
      with those items, is the old list as a multiset. With the order lemma
      above, this determines the result. */
  lemma RemovedKeepsOthers(todos: seq<Todo>, id: string)
    ensures multiset(Removed(todos, id)) + multiset(Filter(todos, (t: Todo) => t.id == id)) == multiset(todos)
  {
    FilterComplements(todos, (t: Todo) => t.id != id, (t: Todo) => t.id == id);
  }

  /** Deleting an id that no item has changes nothing. */
  lemma RemovedAbsent(todos: seq<Todo>, id: string)
    requires !HasId(todos, id)
    ensures Removed(todos, id) == todos
  {
    FilterKeepsAll(todos, (t: Todo) => t.id != id);
  }

  /** Deleting twice is deleting once. */
  lemma RemovedTwice(todos: seq<Todo>, id: string)
    ensures Removed(Removed(todos, id), id) == Removed(todos, id)
  {
    FilterIdempotent(todos, (t: Todo) => t.id != id);
  }

  /** With distinct ids, deleting removes exactly one item when the id is present. */
  lemma {:induction false} RemovedLength(todos: seq<Todo>, id: string)
    requires DistinctIds(todos)
    ensures |Removed(todos, id)| == if HasId(todos, id) then |todos| - 1 else |todos|
  {
    if todos != [] {
      var rest := todos[1..];
      DistinctIdsCons(todos[0], rest);
      RemovedLength(rest, id);
      if todos[0].id == id {
        RemovedAbsent(rest, id);
      } else {
        assert HasId(todos, id) <==> HasId(rest, id) by {
          assert todos == [todos[0]] + rest;
        }
      }
    }
  }

  /** Deleting keeps the list invariant. */
  lemma RemovedWellFormed(todos: seq<Todo>, id: string)
    requires WellFormed(todos)
    ensures WellFormed(Removed(todos, id))
  {
    FilterKeepsDistinctIds(todos, (t: Todo) => t.id != id);
  }

  // ----- add -----

  /** Putting an item with a fresh id and a valid text in front keeps the list invariant. */
  lemma PrependWellFormed(todos: seq<Todo>, t: Todo)
    requires WellFormed(todos) && ValidText(t.text) && !HasId(todos, t.id)
    ensures WellFormed([t] + todos)
  {
    DistinctIdsCons(t, todos);
  }

  // ----- views -----

  /** The `all` view is the whole list. */
  lemma VisibleAll(todos: seq<Todo>)
    ensures Visible(todos, All) == todos
  {
    FilterKeepsAll(todos, (t: Todo) => Shows(All, t));
  }

  /** Every view lists its items in the order of the list. */
  lemma VisibleIsSubsequence(todos: seq<Todo>, filter: FilterType)
    ensures IsSubsequence(Visible(todos, filter), todos)
  {
    FilterIsSubsequence(todos, (t: Todo) => Shows(filter, t));
  }

  /** The `active` and `completed` views share no item, and together they hold
      every item of the list as often as the list does. */
  lemma ViewsPartition(todos: seq<Todo>)
    ensures forall t :: t in Visible(todos, Active) ==> t !in Visible(todos, Completed)
    ensures multiset(Visible(todos, Active)) + multiset(Visible(todos, Completed)) == multiset(todos)
    ensures |Visible(todos, Active)| + |Visible(todos, Completed)| == |todos|
  {
    FilterComplements(todos, (t: Todo) => Shows(Active, t), (t: Todo) => Shows(Completed, t));
  }

  /** The active count is the length of the `active` view, and what is left of
      the list is the `completed` view (the "completed" figure of TodoFilters). */
  lemma ActiveCountIsActiveView(todos: seq<Todo>)
    ensures ActiveTodosCount(todos) == |Visible(todos, Active)|
    ensures |todos| - ActiveTodosCount(todos) == |Visible(todos, Completed)|
  {
    FilterAgreeing(todos, (t: Todo) => !t.completed, (t: Todo) => Shows(Active, t));
    ViewsPartition(todos);
  }

  // ----- helpers about distinct ids -----

  lemma DistinctIdsCons(t: Todo, rest: seq<Todo>)
    ensures DistinctIds([t] + rest) <==> DistinctIds(rest) && !HasId(rest, t.id)
  {
    var s := [t] + rest;
    if DistinctIds(s) {
      forall i, j | 0 <= i < j < |rest| ensures rest[i].id != rest[j].id {
        assert rest[i] == s[i + 1] && rest[j] == s[j + 1];
      }
      forall u | u in rest ensures u.id != t.id {
        var k :| 0 <= k < |rest| && rest[k] == u;
        assert s[0] == t && s[k + 1] == u;
      }
    }
    if DistinctIds(rest) && !HasId(rest, t.id) {
      forall i, j | 0 <= i < j < |s| ensures s[i].id != s[j].id {
        assert s[j] == rest[j - 1];
        if i > 0 { assert s[i] == rest[i - 1]; } else { assert rest[j - 1] in rest; }
      }
    }
  }

  /** Any filter of a well-formed list is well-formed. */
  lemma {:induction false} FilterKeepsDistinctIds(todos: seq<Todo>, p: Todo -> bool)
    requires WellFormed(todos)
    ensures WellFormed(Filter(todos, p))
  {
    if todos != [] {
      var rest := todos[1..];
      assert todos == [todos[0]] + rest;
      DistinctIdsCons(todos[0], rest);
      FilterKeepsDistinctIds(rest, p);
      if p(todos[0]) {
        var fr := Filter(rest, p);
        assert Filter(todos, p) == [todos[0]] + fr;
        assert !HasId(fr, todos[0].id);
        DistinctIdsCons(todos[0], fr);
      }
    }
  }
}
