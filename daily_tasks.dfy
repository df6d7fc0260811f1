/**
 * The daily checklist (`dailyTasks` in script.js): at most five recurring
 * items, each either done or not, cleared once per calendar day by
 * `utils.checkDailyReset`.  Every change is written through to the
 * `dailyTasks` entry of local storage, modelled here as the field `saved`.
 */
module DailyTasks {
  import opened Lists
  import opened Text

  /** `dailyTasks.MAX_TASKS`. */
  const MaxTasks: nat := 5

  datatype DailyTask = DailyTask(id: int, name: string, completed: bool)

  /** What `addTask` did: appended an entry, refused because the list is
      full (the case in which the source shows an alert), or ignored a name
      that is blank after trimming. */
  datatype AddOutcome = Added | AtCapacity | BlankName

  function Id(t: DailyTask): int { t.id }

  /** The callbacks `t => t.completed` and `t => !t.completed`. */
  predicate IsDone(t: DailyTask) { t.completed }
  predicate IsPending(t: DailyTask) { !t.completed }

  /** The callback `t => t.id === id` that `find` is given. */
  function HasId(id: int): DailyTask -> bool { (t: DailyTask) => t.id == id }

  /** The list `editTask` leaves: when some entry has the id and the new name
      is not blank, the first such entry is renamed to the trimmed name;
      otherwise nothing changes. */
  function Renamed(tasks: seq<DailyTask>, id: int, newName: string): (r: seq<DailyTask>)
    ensures |r| == |tasks|
    ensures var found := FindFirst(tasks, HasId(id));
            if found.None? || IsBlank(newName) then r == tasks
            else var i := found.value;
                 && r[i] == DailyTask(tasks[i].id, Trim(newName), tasks[i].completed)
                 && forall j :: 0 <= j < |r| && j != i ==> r[j] == tasks[j]
  {
    match FindFirst(tasks, HasId(id))
    case None => tasks
    case Some(i) =>
      if IsBlank(newName) then tasks else tasks[i := tasks[i].(name := Trim(newName))]
  }

  /** The list `toggleTask` leaves: the first entry with the id has its
      `completed` flag flipped; no other entry and no other field changes. */
  function Toggled(tasks: seq<DailyTask>, id: int): (r: seq<DailyTask>)
    ensures |r| == |tasks|
    ensures match FindFirst(tasks, HasId(id))
            case None => r == tasks
            case Some(i) =>
              && r[i] == DailyTask(tasks[i].id, tasks[i].name, !tasks[i].completed)
              && forall j :: 0 <= j < |r| && j != i ==> r[j] == tasks[j]
  {
    match FindFirst(tasks, HasId(id))
    case None => tasks
    case Some(i) => tasks[i := tasks[i].(completed := !tasks[i].completed)]
  }

  /** The list the reset sweep leaves: every entry not done, ids and names
      as they were. */
  function Cleared(tasks: seq<DailyTask>): (r: seq<DailyTask>)
    ensures |r| == |tasks|
    ensures forall i :: 0 <= i < |r| ==>
              !r[i].completed && r[i].id == tasks[i].id && r[i].name == tasks[i].name
  {
    seq(|tasks|, i requires 0 <= i < |tasks| => tasks[i].(completed := false))
  }

  /** Ticking an entry twice gives the list back. */
  lemma ToggleTwice(tasks: seq<DailyTask>, id: int)
    ensures Toggled(Toggled(tasks, id), id) == tasks
  {
    match FindFirst(tasks, HasId(id))
    case None =>
    case Some(i) =>
      var once := Toggled(tasks, id);
      FindFirstAfterUpdate(tasks, HasId(id), i, once[i]);
  }

  /** Renaming twice with the same name is renaming once. */
  lemma RenameIdempotent(tasks: seq<DailyTask>, id: int, newName: string)
    ensures Renamed(Renamed(tasks, id, newName), id, newName) == Renamed(tasks, id, newName)
  {
    match FindFirst(tasks, HasId(id))
    case None =>
    case Some(i) =>
      if !IsBlank(newName) {
        var once := Renamed(tasks, id, newName);
        FindFirstAfterUpdate(tasks, HasId(id), i, once[i]);
      }
  }

  /** Deleting the entry that was just appended, under a fresh id, gives the
      list from before the add back. */
  lemma DeleteUndoesAdd(tasks: seq<DailyTask>, name: string, id: int)
    requires forall t :: t in tasks ==> t.id != id
    ensures Without(tasks + [DailyTask(id, Trim(name), false)], Id, id) == tasks
  {
    FilterConcat(tasks, [DailyTask(id, Trim(name), false)], KeyIsNot(Id, id));
    assert forall i :: 0 <= i < |tasks| ==> KeyIsNot(Id, id)(tasks[i]) by {
      forall i | 0 <= i < |tasks| ensures KeyIsNot(Id, id)(tasks[i]) {
        assert tasks[i] in tasks;
      }
    }
    FilterAcceptingAll(tasks, KeyIsNot(Id, id));
  }

  /** The checklist's state: the in-memory list, the stored copy of it and
      the stored reset marker. */
  class Checklist {
    /** `state.dailyTasks`. */
    var tasks: seq<DailyTask>
    /** The `dailyTasks` entry of local storage; None while it is absent. */
    var saved: Option<seq<DailyTask>>
    /** The `lastDailyReset` entry of local storage. */
    var lastReset: Option<string>

    /** At most five entries, no two with the same id, and the stored copy
        is the list (an absent entry loads as the empty list). */
    ghost predicate Valid()
      reads this
    {
      && |tasks| <= MaxTasks
      && DistinctKeys(tasks, Id)
      && tasks == (if saved.Some? then saved.value else [])
    }

    /** First start, with nothing in storage. */
    constructor ()
      ensures Valid()
      ensures tasks == [] && saved == None && lastReset == None
    {
      tasks, saved, lastReset := [], None, None;
    }

    /** `storage.loadDailyTasks` on a page load: the list starts empty and
        is replaced by the stored copy when there is one.  What was saved is
        what comes back. */
    method Load()
      requires Valid()
      modifies this
      ensures Valid()
      ensures tasks == old(tasks) && saved == old(saved) && lastReset == old(lastReset)
    {
      tasks := [];
      if saved.Some? {
        tasks := saved.value;
      }
    }

    /** `dailyTasks.addTask(taskName)`, with `Date.now()` given as `id`. */
    method AddTask(name: string, id: int) returns (outcome: AddOutcome)
      requires Valid()
      requires forall t :: t in tasks ==> t.id != id
      modifies this
      ensures Valid() && lastReset == old(lastReset)
      ensures outcome == if |old(tasks)| >= MaxTasks then AtCapacity
                         else if IsBlank(name) then BlankName
                         else Added
      ensures outcome != Added ==> tasks == old(tasks) && saved == old(saved)
      ensures outcome == Added ==>
                tasks == old(tasks) + [DailyTask(id, Trim(name), false)] && saved == Some(tasks)
    {
      if |tasks| >= MaxTasks {
        return AtCapacity;
      }
      if IsBlank(name) {
        return BlankName;
      }
      var entry := DailyTask(id, Trim(name), false);
      assert forall i :: 0 <= i < |tasks| ==> Id(tasks[i]) != Id(entry) by {
        forall i | 0 <= i < |tasks| ensures Id(tasks[i]) != Id(entry) {
          assert tasks[i] in tasks;
        }
      }
      AppendKeepsDistinct(tasks, entry, Id);
      tasks := tasks + [entry];
      saved := Some(tasks);
      outcome := Added;
    }

    /** `dailyTasks.deleteTask(id)`; the confirmation dialog stays with the
        caller, as in the source. */
    method DeleteTask(id: int)
      requires Valid()
      modifies this
      ensures Valid() && lastReset == old(lastReset)
      ensures tasks == Without(old(tasks), Id, id) && saved == Some(tasks)
    {
      FilterKeepsDistinct(tasks, KeyIsNot(Id, id), Id);
      tasks := Without(tasks, Id, id);
      saved := Some(tasks);
    }

    /** `dailyTasks.editTask(id, newName)`: stores only when it renames. */
    method EditTask(id: int, newName: string)
      requires Valid()
      modifies this
      ensures Valid() && lastReset == old(lastReset)
      ensures tasks == Renamed(old(tasks), id, newName)
      ensures saved == if FindFirst(old(tasks), HasId(id)).Some? && !IsBlank(newName)
                       then Some(tasks) else old(saved)
    {
      var found := FindFirst(tasks, HasId(id));
      if found.Some? && !IsBlank(newName) {
        var i := found.value;
        tasks := tasks[i := tasks[i].(name := Trim(newName))];
        saved := Some(tasks);
      }
    }

    /** `dailyTasks.toggleTask(id)`: stores only when it finds the id. */
    method ToggleTask(id: int)
      requires Valid()
      modifies this
      ensures Valid() && lastReset == old(lastReset)
      ensures tasks == Toggled(old(tasks), id)
      ensures saved == if FindFirst(old(tasks), HasId(id)).Some? then Some(tasks) else old(saved)
    {
      var found := FindFirst(tasks, HasId(id));
      if found.Some? {
        var i := found.value;
        tasks := tasks[i := tasks[i].(completed := !tasks[i].completed)];
        saved := Some(tasks);
      }
    }

    /** `utils.checkDailyReset()`, with `new Date().toDateString()` given as
        `today`: on a day other than the stored marker's, every entry is
        cleared, the list is stored and the marker becomes `today`; on the
        marker's own day nothing changes. */
    method CheckDailyReset(today: string)
      requires Valid()
      modifies this
      ensures Valid() && lastReset == Some(today)
      ensures old(lastReset) == Some(today) ==> tasks == old(tasks) && saved == old(saved)
      ensures old(lastReset) != Some(today) ==> tasks == Cleared(old(tasks)) && saved == Some(tasks)
    {
      if lastReset != Some(today) {
        for i := 0 to |tasks|
          invariant |tasks| == |old(tasks)|
          invariant forall j :: 0 <= j < i ==> tasks[j] == old(tasks)[j].(completed := false)
          invariant forall j :: i <= j < |tasks| ==> tasks[j] == old(tasks)[j]
        {
          tasks := tasks[i := tasks[i].(completed := false)];
        }
        assert tasks == Cleared(old(tasks));
        lastReset := Some(today);
        saved := Some(tasks);
      }
    }

    /** The two numbers `updateProgress` shows: entries done, and entries. */
    function Progress(): (r: (nat, nat))
      reads this
      ensures r.0 <= r.1 == |tasks|
      ensures r.0 == |tasks| <==> forall i :: 0 <= i < |tasks| ==> tasks[i].completed
    {
      FilterKeepsAllIff(tasks, IsDone);
      (|Filter(tasks, IsDone)|, |tasks|)
    }
  }

  /** Clearing an already cleared list changes nothing. */
  lemma ClearedIdempotent(tasks: seq<DailyTask>)
    ensures Cleared(Cleared(tasks)) == Cleared(tasks)
  {
    var once := Cleared(tasks);
    assert forall i :: 0 <= i < |once| ==> Cleared(once)[i] == once[i];
  }

  /** Two reset sweeps on the same day leave what one sweep leaves: the
      second finds the marker set to today and changes nothing. */
  method ResetTwiceSameDay(c: Checklist, today: string)
    requires c.Valid()
    modifies c
    ensures c.Valid() && c.lastReset == Some(today)
    ensures c.tasks == (if old(c.lastReset) == Some(today) then old(c.tasks) else Cleared(old(c.tasks)))
    ensures c.saved == (if old(c.lastReset) == Some(today) then old(c.saved) else Some(c.tasks))
  {
    c.CheckDailyReset(today);
    c.CheckDailyReset(today);
  }
}
