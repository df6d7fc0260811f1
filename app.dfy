/**
 * The page-load sequence (the `DOMContentLoaded` handler in script.js):
 * both lists are read back from storage and the daily reset sweep runs
 * (from `dailyTasks.init`) before anything is shown.
 */
module App {
  import D = DailyTasks
  import T = TaskManager
  import opened Lists

  /** Loading gives back what was stored; the checklist is then cleared
      unless the sweep already ran on `today`; the task list is untouched. */
  method Start(checklist: D.Checklist, taskList: T.TaskList, today: string)
    requires checklist.Valid() && taskList.Valid()
    modifies checklist, taskList
    ensures checklist.Valid() && taskList.Valid()
    ensures taskList.tasks == old(taskList.tasks) && taskList.saved == old(taskList.saved)
    ensures taskList.currentFilter == old(taskList.currentFilter)
    ensures checklist.lastReset == Some(today)
    ensures checklist.tasks == if old(checklist.lastReset) == Some(today) then old(checklist.tasks)
                               else D.Cleared(old(checklist.tasks))
    ensures checklist.saved == if old(checklist.lastReset) == Some(today) then old(checklist.saved)
                               else Some(checklist.tasks)
  {
    taskList.Load();
    checklist.Load();
    checklist.CheckDailyReset(today);
  }
}
