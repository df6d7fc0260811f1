/**
 * The numbers behind the two charts (`analytics` in script.js): the
 * completed/pending split of the whole task list, and the number of tasks
 * completed on each of the last seven days.  The histogram is generic in
 * what a day is: abstract day numbers (consecutive calendar days are
 * consecutive numbers) or calendar dates; `dayOf` maps a completion time
 * stamp to the local day it falls on.
 */
module Analytics {
  import opened Lists
  import opened TaskManager

  /** The pie chart's two numbers: `filter(t => t.completed).length` and
      `filter(t => !t.completed).length`.  They add up to the list's length
      and are the sizes of the "completed" and "active" views. */
  function PieCounts(tasks: seq<Task>): (r: (nat, nat))
    ensures r.0 + r.1 == |tasks|
    ensures r.0 == |Filtered(tasks, "completed")| && r.1 == |Filtered(tasks, "active")|
  {
    FilterComplement(tasks, IsDone, IsPending);
    (|Filter(tasks, IsDone)|, |Filter(tasks, IsPending)|)
  }

  /** `utils.getLastSevenDays()` on day numbers: the seven days ending with
      `today`, oldest first. */
  method LastSevenDays(today: int) returns (days: seq<int>)
    ensures |days| == 7 && Distinct(days)
    ensures forall k :: 0 <= k < 7 ==> days[k] == today - 6 + k
  {
    days := [];
    var i := 6;
    while i >= 0
      invariant -1 <= i <= 6
      invariant |days| == 6 - i
      invariant forall k :: 0 <= k < |days| ==> days[k] == today - 6 + k
    {
      days := days + [today - i];
      i := i - 1;
    }
  }

  /** The callback `getTasksPerDay` filters with for one day: the task has
      a completion time, and it falls on that day. */
  function CompletedOn<D(==)>(day: D, dayOf: string -> D): Task -> bool {
    (t: Task) => t.completedAt.Some? && dayOf(t.completedAt.value) == day
  }

  /** `analytics.getTasksPerDay(days)`: for each day, how many tasks were
      completed on it. */
  function TasksPerDay<D(==)>(tasks: seq<Task>, days: seq<D>, dayOf: string -> D): (counts: seq<nat>)
    ensures |counts| == |days|
    ensures forall k :: 0 <= k < |days| ==> counts[k] <= |tasks|
  {
    if days == [] then []
    else [|Filter(tasks, CompletedOn(days[0], dayOf))|] + TasksPerDay(tasks, days[1..], dayOf)
  }

  function Sum(s: seq<nat>): nat {
    if s == [] then 0 else s[0] + Sum(s[1..])
  }

  /** No day occurs twice: distinct keys under the identity. */
  ghost predicate Distinct<D>(days: seq<D>) {
    DistinctKeys(days, (d: D) => d)
  }

  /** How many of `days` a single task counts towards. */
  ghost function Hits<D>(t: Task, days: seq<D>, dayOf: string -> D): nat {
    if days == [] then 0
    else (if CompletedOn(days[0], dayOf)(t) then 1 else 0) + Hits(t, days[1..], dayOf)
  }

  /** The first task's share of the histogram is its hits. */
  lemma {:induction false} PerDaySplit<D>(t: Task, rest: seq<Task>, days: seq<D>, dayOf: string -> D)
    ensures Sum(TasksPerDay([t] + rest, days, dayOf))
            == Hits(t, days, dayOf) + Sum(TasksPerDay(rest, days, dayOf))
  {
    if days != [] {
      PerDaySplit(t, rest, days[1..], dayOf);
      assert ([t] + rest)[1..] == rest;
    }
  }

  /** A day that is not among `days` gets no hits. */
  lemma {:induction false} HitsOnOtherDays<D>(t: Task, days: seq<D>, dayOf: string -> D)
    requires t.completedAt.None? || forall k :: 0 <= k < |days| ==> days[k] != dayOf(t.completedAt.value)
    ensures Hits(t, days, dayOf) == 0
  {
    if days != [] {
      HitsOnOtherDays(t, days[1..], dayOf);
    }
  }

  /** Over distinct days a task counts at most once, and not at all while
      it has no completion time. */
  lemma {:induction false} HitsAtMostOnce<D>(t: Task, days: seq<D>, dayOf: string -> D)
    requires Distinct(days)
    ensures Hits(t, days, dayOf) <= (if t.completedAt.Some? then 1 else 0)
  {
    if days != [] {
      var rest := days[1..];
      assert Distinct(rest) by {
        forall i, j | 0 <= i < j < |rest| ensures rest[i] != rest[j] {
          assert rest[i] == days[i + 1] && rest[j] == days[j + 1];
        }
      }
      if CompletedOn(days[0], dayOf)(t) {
        assert forall k :: 0 <= k < |rest| ==> rest[k] != dayOf(t.completedAt.value) by {
          forall k | 0 <= k < |rest| ensures rest[k] != dayOf(t.completedAt.value) {
            assert rest[k] == days[k + 1];
          }
        }
        HitsOnOtherDays(t, rest, dayOf);
      } else {
        HitsAtMostOnce(t, rest, dayOf);
      }
    }
  }

  /** Over distinct days the bar chart never shows more completions than
      the pie chart: each completed task is counted on at most one day, and
      an open task (which has no completion time) on none. */
  lemma {:induction false} HistogramWithinCompleted<D>(tasks: seq<Task>, days: seq<D>, dayOf: string -> D)
    requires Distinct(days) && AllStamped(tasks)
    ensures Sum(TasksPerDay(tasks, days, dayOf)) <= PieCounts(tasks).0
  {
    if tasks == [] {
      assert Sum(TasksPerDay(tasks, days, dayOf)) == 0 by {
        EmptyHistogram(days, dayOf);
      }
    } else {
      var t, rest := tasks[0], tasks[1..];
      assert tasks == [t] + rest;
      assert AllStamped(rest) by {
        forall i | 0 <= i < |rest| ensures Stamped(rest[i]) {
          assert rest[i] == tasks[i + 1];
        }
      }
      assert Stamped(t);
      HistogramWithinCompleted(rest, days, dayOf);
      PerDaySplit(t, rest, days, dayOf);
      HitsAtMostOnce(t, days, dayOf);
      assert PieCounts(tasks).0 == (if t.completed then 1 else 0) + PieCounts(rest).0;
    }
  }

  /** An empty task list gives an all-zero histogram. */
  lemma {:induction false} EmptyHistogram<D>(days: seq<D>, dayOf: string -> D)
    ensures Sum(TasksPerDay([], days, dayOf)) == 0
  {
    if days != [] {
      EmptyHistogram(days[1..], dayOf);
    }
  }

  /** A single task completed at `at` shows up as a 1 on the day `at`
      falls on, and as 0 everywhere else. */
  lemma SingleCompletion<D>(t: Task, at: string, days: seq<D>, dayOf: string -> D)
    requires t.completedAt == Some(at)
    ensures forall k :: 0 <= k < |days| ==>
              TasksPerDay([t], days, dayOf)[k] == if days[k] == dayOf(at) then 1 else 0
  {
    forall k | 0 <= k < |days|
      ensures TasksPerDay([t], days, dayOf)[k] == if days[k] == dayOf(at) then 1 else 0
    {
      PerDayAt([t], days, dayOf, k);
    }
  }

  /** The bar for day `k` counts the tasks completed on `days[k]`. */
  lemma {:induction false} PerDayAt<D>(tasks: seq<Task>, days: seq<D>, dayOf: string -> D, k: nat)
    requires k < |days|
    ensures TasksPerDay(tasks, days, dayOf)[k] == |Filter(tasks, CompletedOn(days[k], dayOf))|
  {
    if k > 0 {
      PerDayAt(tasks, days[1..], dayOf, k - 1);
    }
  }

  /** A task completed three days ago, alone in the list, gives the bars
      0, 0, 0, 1, 0, 0, 0 over the last seven days. */
  lemma ThreeDaysAgo(t: Task, at: string, today: int, days: seq<int>, dayOf: string -> int)
    requires t.completedAt == Some(at) && dayOf(at) == today - 3
    requires |days| == 7 && forall k :: 0 <= k < 7 ==> days[k] == today - 6 + k
    ensures TasksPerDay([t], days, dayOf) == [0, 0, 0, 1, 0, 0, 0]
  {
    SingleCompletion(t, at, days, dayOf);
  }

  /** Ticking a task moves it from one side of the pie chart to the other. */
  lemma ToggleMovesPie(tasks: seq<Task>, id: string, now: string)
    ensures match FindFirst(tasks, HasId(id))
            case None => PieCounts(Toggled(tasks, id, now)) == PieCounts(tasks)
            case Some(i) => PieCounts(Toggled(tasks, id, now)) == FlippedPie(PieCounts(tasks), tasks[i].completed)
  {
    match FindFirst(tasks, HasId(id))
    case None =>
    case Some(i) =>
      var r := Toggled(tasks, id, now);
      assert r == tasks[i := r[i]];
      PieAfterFlip(tasks, i, r[i]);
  }

  /** The pie after one task changes sides: `wasDone` tells which side it
      leaves. */
  function FlippedPie(pie: (nat, nat), wasDone: bool): (int, int) {
    if wasDone then (pie.0 - 1, pie.1 + 1) else (pie.0 + 1, pie.1 - 1)
  }

  /** Replacing one task by one with the opposite flag moves one unit of the
      pie to the other side. */
  lemma PieAfterFlip(tasks: seq<Task>, i: nat, x: Task)
    requires i < |tasks| && x.completed == !tasks[i].completed
    ensures PieCounts(tasks[i := x]) == FlippedPie(PieCounts(tasks), tasks[i].completed)
  {
    FilterCountAfterUpdate(tasks, IsDone, i, x);
    FilterCountAfterUpdate(tasks, IsPending, i, x);
  }

  /** Editing a task changes neither chart: edits never touch completion. */
  lemma EditKeepsCharts<D>(tasks: seq<Task>, id: string, data: TaskData, days: seq<D>, dayOf: string -> D)
    ensures PieCounts(Edited(tasks, id, data)) == PieCounts(tasks)
    ensures TasksPerDay(Edited(tasks, id, data), days, dayOf) == TasksPerDay(tasks, days, dayOf)
  {
    match FindFirst(tasks, HasId(id))
    case None =>
    case Some(i) =>
      var x := Overwritten(tasks[i], data);
      assert Edited(tasks, id, data) == tasks[i := x];
      FilterCountAfterUpdate(tasks, IsDone, i, x);
      FilterCountAfterUpdate(tasks, IsPending, i, x);
      EditKeepsHistogram(tasks, i, x, days, dayOf);
  }

  lemma {:induction false} EditKeepsHistogram<D>(tasks: seq<Task>, i: nat, x: Task, days: seq<D>, dayOf: string -> D)
    requires i < |tasks| && x.completedAt == tasks[i].completedAt
    ensures TasksPerDay(tasks[i := x], days, dayOf) == TasksPerDay(tasks, days, dayOf)
  {
    if days != [] {
      FilterCountAfterUpdate(tasks, CompletedOn(days[0], dayOf), i, x);
      EditKeepsHistogram(tasks, i, x, days[1..], dayOf);
    }
  }

  /** A local calendar date, the part of a time that `toDateString` shows. */
  datatype Date = Date(year: int, month: int, day: int)

  /** The year V8's date parser fills in for a date string that names none. */
  const DefaultParseYear: int := 2001

  /** The dates `getTasksPerDay` actually compares against, as written:
      `getLastSevenDays` turns each date of the window into a yearless label
      ("Oct 14"), and `new Date(label)` parses it back with the parser's
      default year.  Month and day survive; the year does not. */
  function LabelDates(window: seq<Date>): (r: seq<Date>)
    ensures |r| == |window|
    ensures forall k :: 0 <= k < |r| ==>
              r[k] == Date(DefaultParseYear, window[k].month, window[k].day)
  {
    if window == [] then []
    else [Date(DefaultParseYear, window[0].month, window[0].day)] + LabelDates(window[1..])
  }

  /** As written, a task completed on a day of the window is not counted on
      that day's bar unless the year is 2001, while the intended comparison
      against the window's own dates counts it: a single task completed
      today (2026-10-14) gives 0 where 1 was meant. */
  lemma LabelParsingMissesCompletions(t: Task, at: string, window: seq<Date>, dateOf: string -> Date, k: nat)
    requires t.completedAt == Some(at) && k < |window|
    requires dateOf(at) == window[k] && window[k].year != DefaultParseYear
    ensures TasksPerDay([t], LabelDates(window), dateOf)[k] == 0
    ensures TasksPerDay([t], window, dateOf)[k] == 1
  {
    SingleCompletion(t, at, LabelDates(window), dateOf);
    SingleCompletion(t, at, window, dateOf);
  }

  /** The concrete case: the list holds one task, completed today. */
  lemma CompletedTodayShowsZero(t: Task, at: string, dateOf: string -> Date)
    requires t.completedAt == Some(at) && dateOf(at) == Date(2026, 10, 14)
    ensures TasksPerDay([t], LabelDates([Date(2026, 10, 14)]), dateOf) == [0]
    ensures TasksPerDay([t], [Date(2026, 10, 14)], dateOf) == [1]
  {
    LabelParsingMissesCompletions(t, at, [Date(2026, 10, 14)], dateOf, 0);
  }
}
