/** The choice of cell kind for each view-model item of a month section. */
module Cells {
  import opened Calendar
  import opened Projection

  /** The cell kinds the section uses: a calendar-day cell, a month-title
      cell, and a plain label cell. */
  datatype CellKind = DayCell | TitleCell | LabelCell

  /** The cell kind for an item. Every item gets one: day items a day cell,
      the title a title cell, and every other item a label cell. */
  function CellKindFor<A>(vm: ViewModel<A>): (k: CellKind)
    ensures k == DayCell <==> vm.Day?
    ensures k == TitleCell <==> vm.MonthTitle?
    ensures k == LabelCell <==> vm.Appt?
  {
    if vm.Day? then DayCell
    else if vm.MonthTitle? then TitleCell
    else LabelCell
  }

  /** In the projection of a month, the first cell is a title cell, the
      cells at positions 1 to `days` are day cells, and all later cells are
      label cells. */
  lemma ProjectionCellKinds<A>(m: Month<A>, selectedDay: int, today: int)
    requires m.days >= 0
    ensures var r := Project(MonthObject(m), selectedDay, today);
      && CellKindFor(r[0]) == TitleCell
      && (forall i :: 1 <= i <= m.days ==> CellKindFor(r[i]) == DayCell)
      && (forall i :: m.days < i < |r| ==> CellKindFor(r[i]) == LabelCell)
  {
    DayItemPositions(m, selectedDay, today);
  }
}
