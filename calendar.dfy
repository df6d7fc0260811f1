/**
 * The date cells of the month view (`calendar.render` in script.js): the
 * last days of the previous month up to the first weekday, the days of the
 * month, then days of the next month up to six full weeks.  The month's
 * length, the weekday it starts on (0 = Sunday) and the previous month's
 * length are inputs, as is the day of the month that is today, if today
 * lies in the month shown.
 */
module Calendar {
  import opened Lists

  /** Six rows of seven days. */
  const GridCells: nat := 42

  /** One date cell: the number it shows, whether it belongs to a
      neighbouring month (the `other-month` class) and whether it is today
      (the `today` class). */
  datatype Cell = Cell(day: int, otherMonth: bool, today: bool)

  /** The cells `render` appends, in order.  For every real month (28 to
      31 days, starting on any weekday) there are exactly 42 of them. */
  method Render(daysInMonth: nat, firstDay: nat, prevMonthDays: int, today: Option<int>)
    returns (cells: seq<Cell>)
    ensures |cells| == if firstDay + daysInMonth <= GridCells then GridCells else firstDay + daysInMonth
    ensures 28 <= daysInMonth <= 31 && firstDay <= 6 ==> |cells| == GridCells
    ensures forall k :: 0 <= k < firstDay ==>
              cells[k] == Cell(prevMonthDays - firstDay + 1 + k, true, false)
    ensures forall d :: 1 <= d <= daysInMonth ==>
              cells[firstDay + d - 1] == Cell(d, false, today == Some(d))
    ensures forall k :: firstDay + daysInMonth <= k < |cells| ==>
              cells[k] == Cell(k - firstDay - daysInMonth + 1, true, false)
  {
    cells := [];
    // Previous month's trailing dates.
    var i: int := firstDay - 1;
    while i >= 0
      invariant -1 <= i < firstDay
      invariant |cells| == firstDay - 1 - i
      invariant forall k :: 0 <= k < |cells| ==> cells[k] == Cell(prevMonthDays - firstDay + 1 + k, true, false)
    {
      cells := cells + [Cell(prevMonthDays - i, true, false)];
      i := i - 1;
    }
    // The month's own dates.
    var day := 1;
    while day <= daysInMonth
      invariant 1 <= day <= daysInMonth + 1
      invariant |cells| == firstDay + day - 1
      invariant forall k :: 0 <= k < firstDay ==> cells[k] == Cell(prevMonthDays - firstDay + 1 + k, true, false)
      invariant forall d :: 1 <= d < day ==> cells[firstDay + d - 1] == Cell(d, false, today == Some(d))
    {
      cells := cells + [Cell(day, false, today == Some(day))];
      day := day + 1;
    }
    // Next month's leading dates.
    var remaining := GridCells - |cells|;
    day := 1;
    while day <= remaining
      invariant 1 <= day
      invariant remaining >= 0 ==> day <= remaining + 1
      invariant remaining < 0 ==> day == 1
      invariant |cells| == firstDay + daysInMonth + day - 1
      invariant forall k :: 0 <= k < firstDay ==> cells[k] == Cell(prevMonthDays - firstDay + 1 + k, true, false)
      invariant forall d :: 1 <= d <= daysInMonth ==> cells[firstDay + d - 1] == Cell(d, false, today == Some(d))
      invariant forall k :: firstDay + daysInMonth <= k < |cells| ==>
                  cells[k] == Cell(k - firstDay - daysInMonth + 1, true, false)
    {
      cells := cells + [Cell(day, true, false)];
      day := day + 1;
    }
  }
}
