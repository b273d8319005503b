/** The `TaskListManager` of the `TodoList` package: an array of tasks written
    whole to a JSON file after every change, and a completion flag changed by
    index behind a guard that only rejects indices past the end. The file is
    the ghost field `file`. */
module TaskLists {
  import opened Wrappers

  datatype Task = Task(name: string, description: string, isDone: bool)

  datatype TaskListError = InvalidIndex

  /** The list after `tasks[index].isDone = status`. */
  function WithCompletion(tasks: seq<Task>, index: nat, status: bool): seq<Task>
    requires index < |tasks|
  {
    tasks[index := tasks[index].(isDone := status)]
  }

  /** Only the flag of the addressed task changes, to `status`: the length,
      that task's name and description, and every other task stay. */
  lemma WithCompletionFrame(tasks: seq<Task>, index: nat, status: bool)
    requires index < |tasks|
    ensures |WithCompletion(tasks, index, status)| == |tasks|
    ensures WithCompletion(tasks, index, status)[index].isDone == status
    ensures WithCompletion(tasks, index, status)[index].name == tasks[index].name
    ensures WithCompletion(tasks, index, status)[index].description == tasks[index].description
    ensures forall j :: 0 <= j < |tasks| && j != index ==> WithCompletion(tasks, index, status)[j] == tasks[j]
  {
  }

  /** Setting the same flag twice is setting it once. */
  lemma WithCompletionIdempotent(tasks: seq<Task>, index: nat, status: bool)
    requires index < |tasks|
    ensures WithCompletion(WithCompletion(tasks, index, status), index, status) == WithCompletion(tasks, index, status)
  {
  }

  /** Of two changes to the same task the second wins. */
  lemma WithCompletionLastWins(tasks: seq<Task>, index: nat, first: bool, second: bool)
    requires index < |tasks|
    ensures WithCompletion(WithCompletion(tasks, index, first), index, second) == WithCompletion(tasks, index, second)
  {
  }

  /** Setting a task's flag to the value it already has changes nothing. */
  lemma WithCompletionUnchanged(tasks: seq<Task>, index: nat)
    requires index < |tasks|
    ensures WithCompletion(tasks, index, tasks[index].isDone) == tasks
  {
  }

  class TaskListManager {
    var tasks: seq<Task>
    ghost var file: Stored<seq<Task>>

    /** The list as loaded from `file`, which is left as it was. */
    constructor (tasks: seq<Task>, ghost file: Stored<seq<Task>>)
      ensures this.tasks == tasks && this.file == file
    {
      this.tasks := tasks;
      this.file := file;
    }

    /** `init()`: a missing file gives an empty list, and nothing is written; a
        file that does not decode makes the initialiser throw (`None` here);
        otherwise the decoded tasks are the list. */
    static method Open(file: Stored<seq<Task>>) returns (r: Option<TaskListManager>)
      ensures r.None? <==> file.Corrupt?
      ensures r.Some? ==> fresh(r.value) && r.value.file == file
      ensures r.Some? ==> r.value.tasks == if file.Saved? then file.contents else []
    {
      if file.Corrupt? {
        return None;
      }
      var manager := new TaskListManager(if file.Saved? then file.contents else [], file);
      return Some(manager);
    }

    /** `add(task:)`: append, then write the whole list. */
    method Add(task: Task)
      modifies this
      ensures tasks == old(tasks) + [task]
      ensures file == Saved(tasks)
    {
      tasks := tasks + [task];
      file := Saved(tasks);
    }

    /** `changeCompletion(at:to:)`: an index at or past the end throws
        `invalidIndex`, and nothing changes and nothing is written; otherwise
        the task's flag becomes `status` and the list is written. The guard
        does not reject a negative index, on which the subscript traps, hence
        the precondition. */
    method ChangeCompletion(index: int, status: bool) returns (r: Outcome<TaskListError>)
      requires 0 <= index
      modifies this
      ensures r.Fail? <==> index >= |old(tasks)|
      ensures r.Fail? ==> r.error == InvalidIndex && tasks == old(tasks) && file == old(file)
      ensures r.Pass? ==> tasks == WithCompletion(old(tasks), index, status) && file == Saved(tasks)
    {
      if index >= |tasks| {
        return Fail(InvalidIndex);
      }
      tasks := tasks[index := tasks[index].(isDone := status)];
      file := Saved(tasks);
      return Pass;
    }
  }

  /** The package's completion test: two tasks added to an empty list, the
      first marked done and the second not done; the file then holds a done
      first task and an open second one, as the list does. */
  method CompletionScenario() returns (saved: seq<Task>, ghost stored: Stored<seq<Task>>)
    ensures saved == [Task("Notes", "description", true), Task("Hello world", "description", false)]
    ensures |saved| == 2 && saved[0].isDone && !saved[1].isDone
    ensures stored == Saved(saved)
  {
    var restored := TaskListManager.Open(Missing);
    var list := restored.value;
    list.Add(Task("Notes", "description", false));
    list.Add(Task("Hello world", "description", true));
    var r := list.ChangeCompletion(0, true);
    assert r.Pass?;
    r := list.ChangeCompletion(1, false);
    assert r.Pass?;
    saved := list.tasks;
    stored := list.file;
  }
}
