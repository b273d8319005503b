/** The `TodoList` class of the `PersistenceTask` package: an array of todos
    written whole to a JSON file after every change, and a completion flag
    changed by an index nothing checks. The file is the ghost field `file`. */
module TodoLists {
  import opened Wrappers

  datatype Todo = Todo(todo: string, isCompleted: bool)

  /** `Todo.init(todo:isCompleted:)`, whose status defaults to not completed. */
  function NewTodo(todo: string, isCompleted: bool := false): (r: Todo)
    ensures r.todo == todo && r.isCompleted == isCompleted
  {
    Todo(todo, isCompleted)
  }

  /** A todo made without a status is open. */
  lemma NewTodoIsOpen(todo: string)
    ensures !NewTodo(todo).isCompleted
    ensures NewTodo(todo) == NewTodo(todo, false)
  {
  }

  /** The list after `todos[index].isCompleted = newStatus`. */
  function WithStatus(todos: seq<Todo>, index: nat, newStatus: bool): seq<Todo>
    requires index < |todos|
  {
    todos[index := todos[index].(isCompleted := newStatus)]
  }

  /** Only the flag of the addressed todo changes, to `newStatus`: the length,
      that todo's text and every other todo stay. */
  lemma WithStatusFrame(todos: seq<Todo>, index: nat, newStatus: bool)
    requires index < |todos|
    ensures |WithStatus(todos, index, newStatus)| == |todos|
    ensures WithStatus(todos, index, newStatus)[index] == Todo(todos[index].todo, newStatus)
    ensures forall j :: 0 <= j < |todos| && j != index ==> WithStatus(todos, index, newStatus)[j] == todos[j]
  {
  }

  /** Setting the same status twice is setting it once. */
  lemma WithStatusIdempotent(todos: seq<Todo>, index: nat, newStatus: bool)
    requires index < |todos|
    ensures WithStatus(WithStatus(todos, index, newStatus), index, newStatus) == WithStatus(todos, index, newStatus)
  {
  }

  class TodoList {
    var todos: seq<Todo>
    ghost var file: Stored<seq<Todo>>

    /** The list as loaded from `file`, which is left as it was. */
    constructor (todos: seq<Todo>, ghost file: Stored<seq<Todo>>)
      ensures this.todos == todos && this.file == file
    {
      this.todos := todos;
      this.file := file;
    }

    /** `init()`: with no file the list is empty and nothing is written; a
        file that exists but does not decode makes the initialiser throw
        (`None` here); otherwise the decoded todos, in file order. */
    static method Open(file: Stored<seq<Todo>>) returns (r: Option<TodoList>)
      ensures r.None? <==> file.Corrupt?
      ensures r.Some? ==> fresh(r.value) && r.value.file == file
      ensures r.Some? ==> r.value.todos == if file.Saved? then file.contents else []
    {
      if file.Corrupt? {
        return None;
      }
      var list := new TodoList(if file.Saved? then file.contents else [], file);
      return Some(list);
    }

    /** `add(todo:)`: append, then write the whole list. */
    method Add(todo: Todo)
      modifies this
      ensures todos == old(todos) + [todo]
      ensures file == Saved(todos)
    {
      todos := todos + [todo];
      file := Saved(todos);
    }

    /** `changeStatus(of:newStatus:)`: set the flag of the todo at `index` and
        write the list. The subscript is unchecked and traps outside the
        array, hence the precondition. */
    method ChangeStatus(index: int, newStatus: bool)
      requires 0 <= index < |todos|
      modifies this
      ensures todos == WithStatus(old(todos), index, newStatus)
      ensures file == Saved(todos)
    {
      todos := todos[index := todos[index].(isCompleted := newStatus)];
      file := Saved(todos);
    }
  }

  /** The package's writing test: two todos added to an empty list, the first
      marked done; the file then holds both texts in order, only the first
      completed, as the list does. */
  method WritingScenario() returns (saved: seq<Todo>, ghost stored: Stored<seq<Todo>>)
    ensures saved == [Todo("get some sleep", true), Todo("buy curd snack", false)]
    ensures stored == Saved(saved)
  {
    var restored := TodoList.Open(Missing);
    var list := restored.value;
    list.Add(NewTodo("get some sleep"));
    list.Add(NewTodo("buy curd snack"));
    list.ChangeStatus(0, true);
    saved := list.todos;
    stored := list.file;
  }

  /** The package's reading test: a file of three open todos loads as those
      three, in file order, each still open. */
  method ReadingScenario() returns (loaded: seq<Todo>)
    ensures loaded == [Todo("take a walk with dogs", false), Todo("learn swift", false), Todo("call mum", false)]
  {
    var todos := [NewTodo("take a walk with dogs"), NewTodo("learn swift"), NewTodo("call mum")];
    var restored := TodoList.Open(Saved(todos));
    loaded := restored.value.todos;
  }
}
