/** The TodoItem component: one row of the list, with its own edit mode. Its
    state is `isEditing` and `editText`; its props are the todo it shows and
    three callbacks, which the model returns as an `Action` instead of calling. */
module Item {
  import opened Wrappers
  import opened Text
  import opened TodoList

  /** A call of one of the callbacks the parent passes in (`onToggle`, `onDelete`, `onEdit`). */
  datatype Action =
    | OnToggle(id: string)
    | OnDelete(id: string)
    | OnEdit(id: string, newText: string)
  {
    function Id(): string {
      match this
      case OnToggle(id) => id
      case OnDelete(id) => id
      case OnEdit(id, _) => id
    }
  }

  /** What the user does to a row. `KeyDown` carries the key's name (`"Enter"`, `"Escape"`, ...). */
  datatype Event =
    | CheckboxChange   // the checkbox, shown in both modes
    | EditClick        // the pencil button, shown only when not editing
    | DeleteClick      // the bin button, shown only when not editing
    | TextChange(value: string)  // typing in the input, shown only when editing
    | SaveClick        // the check button, shown only when editing
    | CancelClick      // the cross button, shown only when editing
    | KeyDown(key: string)       // a key in the input, shown only when editing

  class TodoItem {
    var todo: Todo
    var isEditing: bool
    var editText: string

    /** Mounting: not editing, and the edit buffer holds the todo's text. */
    constructor (todo: Todo)
      ensures this.todo == todo
      ensures !isEditing && editText == todo.text
    {
      this.todo := todo;
      isEditing := false;
      editText := todo.text;
    }

    /** A re-render with new props. The list is keyed by id, so the same row
        receives only its own todo; its edit state survives. */
    method Receive(t: Todo)
      requires t.id == todo.id
      modifies this`todo
      ensures todo == t
    {
      todo := t;
    }

    /** `handleEdit`: with a non-blank buffer, emits `onEdit` with the buffer as
        typed (untrimmed) and leaves edit mode, keeping the buffer; with a blank
        buffer, does nothing at all. */
    method HandleEdit() returns (emitted: Option<Action>)
      modifies this`isEditing
      ensures !IsBlank(editText) ==> emitted == Some(OnEdit(todo.id, editText)) && !isEditing
      ensures IsBlank(editText) ==> emitted == None && isEditing == old(isEditing)
    {
      if Trim(editText) != [] {
        emitted := Some(OnEdit(todo.id, editText));
        isEditing := false;
      } else {
        emitted := None;
      }
    }

    /** `handleCancel`: restores the buffer from the todo and leaves edit mode. */
    method HandleCancel()
      modifies this`editText, this`isEditing
      ensures editText == todo.text && !isEditing
    {
      editText := todo.text;
      isEditing := false;
    }

    /** `handleKeyPress`: Enter commits, Escape cancels, any other key does nothing. */
    method HandleKeyPress(key: string) returns (emitted: Option<Action>)
      modifies this`editText, this`isEditing
      ensures key == "Enter" ==>
        editText == old(editText) &&
        if IsBlank(editText) then emitted == None && isEditing == old(isEditing)
        else emitted == Some(OnEdit(todo.id, editText)) && !isEditing
      ensures key == "Escape" ==> emitted == None && editText == todo.text && !isEditing
      ensures key != "Enter" && key != "Escape" ==>
        emitted == None && editText == old(editText) && isEditing == old(isEditing)
    {
      if key == "Enter" {
        emitted := HandleEdit();
      } else if key == "Escape" {
        HandleCancel();
        emitted := None;
      } else {
        emitted := None;
      }
    }

    /** The pencil button: enters edit mode, keeping whatever the buffer holds. */
    method StartEdit()
      modifies this`isEditing
      ensures isEditing
    {
      isEditing := true;
    }

    /** The input's `onChange`: the buffer becomes what the input holds. */
    method ChangeText(value: string)
      modifies this`editText
      ensures editText == value
    {
      editText := value;
    }

    /** An event on the row as rendered: the checkbox is always there; the pencil
        and bin buttons only outside edit mode; the input and the check and cross
        buttons only in edit mode. An event on an element that is not rendered
        has no effect. The check button is disabled on a blank buffer, which
        `handleEdit` ignores anyway. */
    method Dispatch(e: Event) returns (emitted: Option<Action>)
      modifies this`editText, this`isEditing
      ensures emitted.Some? ==> emitted.value.Id() == todo.id
      ensures e == CheckboxChange ==>
        emitted == Some(OnToggle(todo.id)) && isEditing == old(isEditing) && editText == old(editText)
      ensures e == DeleteClick ==>
        emitted == (if old(isEditing) then None else Some(OnDelete(todo.id)))
        && isEditing == old(isEditing) && editText == old(editText)
      ensures e == EditClick ==> emitted == None && isEditing && editText == old(editText)
      ensures e.TextChange? ==>
        emitted == None && isEditing == old(isEditing)
        && editText == (if old(isEditing) then e.value else old(editText))
      ensures e == SaveClick || e == KeyDown("Enter") ==>
        editText == old(editText) &&
        if old(isEditing) && !IsBlank(old(editText)) then
          emitted == Some(OnEdit(todo.id, old(editText))) && !isEditing
        else
          emitted == None && isEditing == old(isEditing)
      ensures e == CancelClick || e == KeyDown("Escape") ==>
        emitted == None &&
        if old(isEditing) then !isEditing && editText == todo.text
        else isEditing == old(isEditing) && editText == old(editText)
      ensures e.KeyDown? && e.key != "Enter" && e.key != "Escape" ==>
        emitted == None && isEditing == old(isEditing) && editText == old(editText)
    {
      emitted := None;
      match e
      case CheckboxChange =>
        emitted := Some(OnToggle(todo.id));
      case EditClick =>
        if !isEditing { StartEdit(); }
      case DeleteClick =>
        if !isEditing { emitted := Some(OnDelete(todo.id)); }
      case TextChange(value) =>
        if isEditing { ChangeText(value); }
      case SaveClick =>
        if isEditing { emitted := HandleEdit(); }
      case CancelClick =>
        if isEditing { HandleCancel(); }
      case KeyDown(key) =>
        if isEditing { emitted := HandleKeyPress(key); }
    }
  }

  /** The parent trims what `onEdit` carries and rejects a blank result; a commit
      from a row never carries a blank text, so the parent always accepts it and
      stores the trimmed buffer on the row's todo. The buffer the row keeps equals
      the stored text only when it was typed without surrounding whitespace. */
  lemma CommittedEditIsAccepted(todos: seq<Todo>, id: string, editText: string)
    requires !IsBlank(editText)
    ensures ValidText(Trim(editText))
    ensures var r := Retexted(todos, id, Trim(editText));
      forall i :: 0 <= i < |todos| && todos[i].id == id ==> r[i].text == Trim(editText)
    ensures Trim(editText) == editText <==> IsTrimmed(editText)
  {
    TrimFixesTrimmed(editText);
  }
}
