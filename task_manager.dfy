/**
 * The task list (`taskManager` in script.js): an unbounded list of tasks,
 * newest first, each with a priority, an optional due date and a completion
 * time stamp, and a three-way view (all, active, completed).  Every change
 * is written through to the `todoTasks` entry of local storage, modelled
 * here as the field `saved`.
 */
module TaskManager {
  import opened Lists

  /** A task.  `createdAt` and `completedAt` are the strings
      `new Date().toISOString()` gives; `completedAt` is `null` (None)
      while the task is open. */
  datatype Task = Task(
    id: string,
    title: string,
    description: string,
    dueDate: string,
    priority: string,
    completed: bool,
    createdAt: string,
    completedAt: Option<string>)

  /** The form data `addTask` and `editTask` receive; a field the caller
      leaves undefined is None. */
  datatype TaskData = TaskData(
    title: string,
    description: Option<string>,
    dueDate: Option<string>,
    priority: Option<string>)

  /** JavaScript's `v || fallback` for a value that is a string or
      undefined: both the empty string and undefined give the fallback. */
  function OrElse(v: Option<string>, fallback: string): string {
    if v.Some? && v.value != "" then v.value else fallback
  }

  function Id(t: Task): string { t.id }

  /** The callbacks `t => t.completed` and `t => !t.completed`. */
  predicate IsDone(t: Task) { t.completed }
  predicate IsPending(t: Task) { !t.completed }

  /** The callback `t => t.id === id` that `find` is given. */
  function HasId(id: string): Task -> bool { (t: Task) => t.id == id }

  /** A task carries a completion time exactly when it is completed. */
  ghost predicate Stamped(t: Task) {
    t.completed <==> t.completedAt.Some?
  }

  ghost predicate AllStamped(tasks: seq<Task>) {
    forall i :: 0 <= i < |tasks| ==> Stamped(tasks[i])
  }

  /** The record `addTask` builds: open, with no completion time, created
      `now`, description and due date defaulting to the empty string and
      priority to "medium". */
  function NewTask(data: TaskData, id: string, now: string): (t: Task)
    ensures Stamped(t) && !t.completed && t.completedAt == None
    ensures t.id == id && t.title == data.title && t.createdAt == now
    ensures t.description == (if data.description.Some? then data.description.value else "")
    ensures t.dueDate == (if data.dueDate.Some? then data.dueDate.value else "")
    ensures t.priority == (if data.priority.Some? && data.priority.value != "" then data.priority.value
                           else "medium")
  {
    Task(id, data.title, OrElse(data.description, ""), OrElse(data.dueDate, ""),
         OrElse(data.priority, "medium"), false, now, None)
  }

  /** The task `editTask` leaves: four fields overwritten from the form
      data, id, state and time stamps as they were. */
  function Overwritten(t: Task, data: TaskData): (r: Task)
    ensures r.id == t.id && r.completed == t.completed
    ensures r.createdAt == t.createdAt && r.completedAt == t.completedAt
    ensures r.title == data.title && r.description == OrElse(data.description, "")
    ensures r.dueDate == OrElse(data.dueDate, "") && r.priority == OrElse(data.priority, "medium")
  {
    t.(title := data.title, description := OrElse(data.description, ""),
       dueDate := OrElse(data.dueDate, ""), priority := OrElse(data.priority, "medium"))
  }

  /** The list `editTask` leaves: only the first task with the id changes,
      and only in its four editable fields. */
  function Edited(tasks: seq<Task>, id: string, data: TaskData): (r: seq<Task>)
    ensures |r| == |tasks|
    ensures match FindFirst(tasks, HasId(id))
            case None => r == tasks
            case Some(i) =>
              && r[i] == Overwritten(tasks[i], data)
              && forall j :: 0 <= j < |r| && j != i ==> r[j] == tasks[j]
  {
    match FindFirst(tasks, HasId(id))
    case None => tasks
    case Some(i) => tasks[i := Overwritten(tasks[i], data)]
  }

  /** The list `toggleComplete` leaves: the first task with the id has its
      `completed` flag flipped and its completion time set to `now` when it
      becomes completed and to `null` when it reopens; nothing else changes. */
  function Toggled(tasks: seq<Task>, id: string, now: string): (r: seq<Task>)
    ensures |r| == |tasks|
    ensures match FindFirst(tasks, HasId(id))
            case None => r == tasks
            case Some(i) =>
              && r[i].completed == !tasks[i].completed
              && r[i].completedAt == (if r[i].completed then Some(now) else None)
              && r[i].(completed := tasks[i].completed, completedAt := tasks[i].completedAt) == tasks[i]
              && forall j :: 0 <= j < |r| && j != i ==> r[j] == tasks[j]
  {
    match FindFirst(tasks, HasId(id))
    case None => tasks
    case Some(i) =>
      var done := !tasks[i].completed;
      tasks[i := tasks[i].(completed := done, completedAt := if done then Some(now) else None)]
  }

  /** `getFilteredTasks` for a given `state.currentFilter`. */
  function Filtered(tasks: seq<Task>, filter: string): seq<Task> {
    match filter
    case "active" => Filter(tasks, IsPending)
    case "completed" => Filter(tasks, IsDone)
    case _ => tasks
  }

  /** The active and the completed view are order-preserving pieces of the
      list that share no task and together hold all of it; any other filter
      value shows the whole list. */
  lemma FilterViews(tasks: seq<Task>)
    ensures IsSubsequence(Filtered(tasks, "active"), tasks)
    ensures IsSubsequence(Filtered(tasks, "completed"), tasks)
    ensures forall t :: t in Filtered(tasks, "active") ==> !t.completed
    ensures forall t :: t in Filtered(tasks, "completed") ==> t.completed
    ensures |Filtered(tasks, "active")| + |Filtered(tasks, "completed")| == |tasks|
    ensures multiset(Filtered(tasks, "active")) + multiset(Filtered(tasks, "completed")) == multiset(tasks)
    ensures forall f :: f != "active" && f != "completed" ==> Filtered(tasks, f) == tasks
  {
    FilterIsSubsequence(tasks, IsPending);
    FilterIsSubsequence(tasks, IsDone);
    FilterComplement(tasks, IsPending, IsDone);
  }

  /** Ticking a task twice restores every `completed` flag.  A task that was
      open (and so had no completion time) comes back exactly; one that was completed comes back with the
      second call's time instead of its original one. */
  lemma ToggleTwice(tasks: seq<Task>, id: string, first: string, second: string)
    requires AllStamped(tasks)
    ensures var r := Toggled(Toggled(tasks, id, first), id, second);
            && |r| == |tasks|
            && (forall j :: 0 <= j < |r| ==> r[j].completed == tasks[j].completed)
            && match FindFirst(tasks, HasId(id))
               case None => r == tasks
               case Some(i) =>
                 r == if tasks[i].completed then tasks[i := tasks[i].(completedAt := Some(second))]
                      else tasks
  {
    match FindFirst(tasks, HasId(id))
    case None =>
    case Some(i) =>
      var t := tasks[i];
      var x := t.(completed := !t.completed, completedAt := if !t.completed then Some(first) else None);
      var once := tasks[i := x];
      assert Toggled(tasks, id, first) == once;
      FindFirstAfterUpdate(tasks, HasId(id), i, x);
      var y := x.(completed := t.completed, completedAt := if t.completed then Some(second) else None);
      assert Toggled(once, id, second) == once[i := y];
      if t.completed {
        assert once[i := y] == tasks[i := t.(completedAt := Some(second))];
      } else {
        assert Stamped(t);
        assert once[i := y] == tasks;
      }
  }

  /** Editing twice with the same data is editing once. */
  lemma EditIdempotent(tasks: seq<Task>, id: string, data: TaskData)
    ensures Edited(Edited(tasks, id, data), id, data) == Edited(tasks, id, data)
  {
    match FindFirst(tasks, HasId(id))
    case None =>
    case Some(i) =>
      var once := Edited(tasks, id, data);
      FindFirstAfterUpdate(tasks, HasId(id), i, once[i]);
  }

  /** Deleting the task that was just added, under a fresh id, gives the
      list from before the add back. */
  lemma DeleteUndoesAdd(tasks: seq<Task>, data: TaskData, id: string, now: string)
    requires forall t :: t in tasks ==> t.id != id
    ensures Without([NewTask(data, id, now)] + tasks, Id, id) == tasks
  {
    FilterConcat([NewTask(data, id, now)], tasks, KeyIsNot(Id, id));
    FilterAcceptingAll(tasks, KeyIsNot(Id, id));
  }

  /** The task list's state: the in-memory list, its stored copy and the
      selected filter. */
  class TaskList {
    /** `state.tasks`, newest first. */
    var tasks: seq<Task>
    /** The `todoTasks` entry of local storage; None while it is absent. */
    var saved: Option<seq<Task>>
    /** `state.currentFilter`. */
    var currentFilter: string

    /** No two tasks with the same id, completion times in step with the
        `completed` flags, and the stored copy is the list (an absent entry
        loads as the empty list). */
    ghost predicate Valid()
      reads this
    {
      && DistinctKeys(tasks, Id)
      && AllStamped(tasks)
      && tasks == (if saved.Some? then saved.value else [])
    }

    /** First start, with nothing in storage and the "all" filter. */
    constructor ()
      ensures Valid()
      ensures tasks == [] && saved == None && currentFilter == "all"
    {
      tasks, saved, currentFilter := [], None, "all";
    }

    /** `storage.loadTasks` on a page load: the list starts empty and is
        replaced by the stored copy when there is one.  What was saved is
        what comes back. */
    method Load()
      requires Valid()
      modifies this
      ensures Valid()
      ensures tasks == old(tasks) && saved == old(saved) && currentFilter == old(currentFilter)
    {
      tasks := [];
      if saved.Some? {
        tasks := saved.value;
      }
    }

    /** `taskManager.addTask(taskData)`, with `utils.generateId()` given as
        `id` and the current time as `now`: the new task goes in front. */
    method AddTask(data: TaskData, id: string, now: string)
      requires Valid()
      requires forall t :: t in tasks ==> t.id != id
      modifies this
      ensures Valid() && currentFilter == old(currentFilter)
      ensures tasks == [NewTask(data, id, now)] + old(tasks) && saved == Some(tasks)
    {
      var task := NewTask(data, id, now);
      assert forall i :: 0 <= i < |tasks| ==> Id(tasks[i]) != Id(task) by {
        forall i | 0 <= i < |tasks| ensures Id(tasks[i]) != Id(task) {
          assert tasks[i] in tasks;
        }
      }
      PrependKeepsDistinct(task, tasks, Id);
      tasks := [task] + tasks;
      saved := Some(tasks);
    }

    /** `taskManager.editTask(id, taskData)`: stores only when it finds the id. */
    method EditTask(id: string, data: TaskData)
      requires Valid()
      modifies this
      ensures Valid() && currentFilter == old(currentFilter)
      ensures tasks == Edited(old(tasks), id, data)
      ensures saved == if FindFirst(old(tasks), HasId(id)).Some? then Some(tasks) else old(saved)
    {
      var found := FindFirst(tasks, HasId(id));
      if found.Some? {
        var i := found.value;
        UpdateKeepsDistinct(tasks, i, Overwritten(tasks[i], data), Id);
        tasks := tasks[i := Overwritten(tasks[i], data)];
        saved := Some(tasks);
      }
    }

    /** `taskManager.deleteTask(id)`, with the answer to its confirmation
        dialog given as `confirmed`. */
    method DeleteTask(id: string, confirmed: bool)
      requires Valid()
      modifies this
      ensures Valid() && currentFilter == old(currentFilter)
      ensures confirmed ==> tasks == Without(old(tasks), Id, id) && saved == Some(tasks)
      ensures !confirmed ==> tasks == old(tasks) && saved == old(saved)
    {
      if confirmed {
        FilterKeepsDistinct(tasks, KeyIsNot(Id, id), Id);
        var r := Without(tasks, Id, id);
        assert AllStamped(r) by {
          forall i | 0 <= i < |r| ensures Stamped(r[i]) {
            assert r[i] in tasks;
            var j :| 0 <= j < |tasks| && tasks[j] == r[i];
          }
        }
        tasks := r;
        saved := Some(tasks);
      }
    }

    /** `taskManager.toggleComplete(id)`, with the current time as `now`:
        stores only when it finds the id. */
    method ToggleComplete(id: string, now: string)
      requires Valid()
      modifies this
      ensures Valid() && currentFilter == old(currentFilter)
      ensures tasks == Toggled(old(tasks), id, now)
      ensures saved == if FindFirst(old(tasks), HasId(id)).Some? then Some(tasks) else old(saved)
    {
      var found := FindFirst(tasks, HasId(id));
      if found.Some? {
        var i := found.value;
        var done := !tasks[i].completed;
        var task := tasks[i].(completed := done, completedAt := if done then Some(now) else None);
        UpdateKeepsDistinct(tasks, i, task, Id);
        tasks := tasks[i := task];
        saved := Some(tasks);
      }
    }

    /** The filter buttons' handler: `state.currentFilter = filter`. */
    method SetFilter(filter: string)
      requires Valid()
      modifies this
      ensures Valid() && tasks == old(tasks) && saved == old(saved)
      ensures currentFilter == filter
    {
      currentFilter := filter;
    }

    /** `taskManager.getFilteredTasks()`: exactly the tasks the selected
        filter lets through, each as often as stored, in stored order. */
    function GetFilteredTasks(): (r: seq<Task>)
      reads this
      ensures IsSubsequence(r, tasks)
      ensures currentFilter == "active" ==> forall t :: t in r ==> !t.completed
      ensures currentFilter == "completed" ==> forall t :: t in r ==> t.completed
      ensures currentFilter == "active" ==>
                forall t :: multiset(r)[t] == if t.completed then 0 else multiset(tasks)[t]
      ensures currentFilter == "completed" ==>
                forall t :: multiset(r)[t] == if t.completed then multiset(tasks)[t] else 0
      ensures currentFilter != "active" && currentFilter != "completed" ==> r == tasks
    {
      FilterViews(tasks);
      FilterMultiset(tasks, IsPending);
      FilterMultiset(tasks, IsDone);
      SubsequenceReflexive(tasks);
      Filtered(tasks, currentFilter)
    }
  }
}
