/**
 * The state of the App component: the task list and the text-entry buffer,
 * each replaced as a whole by the component's handlers. Each handler is one
 * atomic transition on the current state; the id that the component reads
 * from the clock is an argument.
 */
module TodoApp {
  import opened Whitespace
  import opened Tasks

  class App {
    var tasks: seq<Task>
    var input: string

    /** No stored task has blank text: addTask refuses blank input. */
    ghost predicate Valid()
      reads this
    {
      AllNonBlank(tasks)
    }

    /** A fresh component: no tasks, empty buffer. */
    constructor ()
      ensures Valid()
      ensures tasks == [] && input == ""
    {
      tasks := [];
      input := "";
    }

    /** The input field's onChange: the buffer takes the field's value. */
    method SetInput(value: string)
      requires Valid()
      modifies this
      ensures Valid()
      ensures input == value && tasks == old(tasks)
    {
      input := value;
    }

    /**
     * addTask: blank input changes nothing; otherwise the raw, untrimmed
     * input is appended as a new uncompleted task under `id` and the buffer
     * is cleared.
     */
    method AddTask(id: int)
      requires Valid()
      modifies this
      ensures Valid()
      ensures IsBlank(old(input)) ==> tasks == old(tasks) && input == old(input)
      ensures !IsBlank(old(input)) ==> tasks == Add(old(tasks), id, old(input)) && input == ""
    {
      if IsBlank(input) {
        return;
      }
      AddKeepsNonBlank(tasks, id, input);
      tasks := Add(tasks, id, input);
      input := "";
    }

    /** toggleComplete: flips every task whose id is `id`; the buffer is untouched. */
    method ToggleComplete(id: int)
      requires Valid()
      modifies this
      ensures Valid()
      ensures tasks == Toggle(old(tasks), id) && input == old(input)
    {
      ToggleKeepsNonBlank(tasks, id);
      tasks := Toggle(tasks, id);
    }

    /** deleteTask: drops every task whose id is `id`; the buffer is untouched. */
    method DeleteTask(id: int)
      requires Valid()
      modifies this
      ensures Valid()
      ensures tasks == Delete(old(tasks), id) && input == old(input)
    {
      DeleteKeepsNonBlank(tasks, id);
      tasks := Delete(tasks, id);
    }
  }

  /**
   * A session from an empty list: type "A" and add it, type "B" and add it,
   * click the row of "A", delete "B". With two distinct clock readings only
   * "A" is left, now completed; when both adds read the same millisecond, the
   * delete removes both tasks.
   */
  method AddToggleDeleteSession(a: int, b: int) returns (r: seq<Task>)
    ensures a != b ==> r == [Task(a, "A", true)]
    ensures a == b ==> r == []
  {
    var app := new App();
    app.SetInput("A");
    BlankIffAllWhitespace("A");
    app.AddTask(a);
    assert app.tasks == [Task(a, "A", false)];
    app.SetInput("B");
    BlankIffAllWhitespace("B");
    app.AddTask(b);
    assert app.tasks == [Task(a, "A", false), Task(b, "B", false)];
    app.ToggleComplete(a);
    if a != b {
      assert app.tasks == [Task(a, "A", true), Task(b, "B", false)];
    } else {
      assert app.tasks == [Task(a, "A", true), Task(a, "B", true)];
    }
    app.DeleteTask(b);
    r := app.tasks;
  }

  /** Adding whitespace-only text leaves the state as it was. */
  method AddBlankSession(id: int) returns (r: seq<Task>, buffer: string)
    ensures r == [] && buffer == " \t "
  {
    var app := new App();
    app.SetInput(" \t ");
    BlankIffAllWhitespace(" \t ");
    app.AddTask(id);
    r, buffer := app.tasks, app.input;
  }
}
