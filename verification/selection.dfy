/** The selection state of a month section and its response to taps.
    `selectedDay` is a single integer; `NoSelection` (-1) means no day is
    selected. */
module Selection {
  import opened Calendar
  import opened Projection

  /** The two logical states of the selection. */
  datatype State = Unselected | Selected(day: int)

  /** The logical state an integer `selectedDay` stands for. */
  function Abs(selectedDay: int): State
  {
    if selectedDay == NoSelection then Unselected else Selected(selectedDay)
  }

  /** The selection state machine on logical states: tapping a day selects
      it, unless it is the selected day, which a tap deselects. */
  function Step(st: State, d: int): State
  {
    match st
    case Unselected => Selected(d)
    case Selected(cur) => if cur == d then Unselected else Selected(d)
  }

  /** The selection a new section controller starts with. */
  function Initial(): (s: int)
    ensures Abs(s) == Unselected
  {
    NoSelection
  }

  /** The selection after a tap on `item`. A tap on anything but a day item
      leaves the selection alone; a tap on a day follows the state machine. */
  function Select<A>(selectedDay: int, item: ViewModel<A>): (s: int)
    ensures !item.Day? ==> s == selectedDay
    ensures item.Day? && item.day != NoSelection ==> Abs(s) == Step(Abs(selectedDay), item.day)
    ensures item.Day? && item.day == NoSelection ==> s == NoSelection
  {
    if !item.Day? then selectedDay
    else if item.day == selectedDay then NoSelection
    else item.day
  }

  /** The selection after a series of taps, first tap first. It is the
      starting selection, no selection, or a day that was tapped; taps on
      items other than days never change it. */
  function Run<A>(selectedDay: int, taps: seq<ViewModel<A>>): (r: int)
    ensures r == selectedDay || r == NoSelection
         || exists i :: 0 <= i < |taps| && taps[i].Day? && r == taps[i].day
    ensures (forall i :: 0 <= i < |taps| ==> !taps[i].Day?) ==> r == selectedDay
    decreases |taps|
  {
    if |taps| == 0 then selectedDay
    else
      var rest := Run(Select(selectedDay, taps[0]), taps[1..]);
      assert forall i :: 0 <= i < |taps[1..]| ==> taps[1..][i] == taps[i + 1];
      rest
  }

  /** Tapping the same day twice returns to the starting selection exactly
      when there was no selection or that day was already selected; from any
      other selection it ends with no selection. */
  lemma TapTwice<A>(selectedDay: int, item: ViewModel<A>)
    requires item.Day?
    ensures Select(Select(selectedDay, item), item) == selectedDay
        <==> (selectedDay == NoSelection || selectedDay == item.day)
    ensures selectedDay != item.day ==> Select(Select(selectedDay, item), item) == NoSelection
  {
  }

  /** Tapping one day and then a different one leaves the second selected,
      whatever was selected before. */
  lemma TapSwitch<A>(selectedDay: int, first: ViewModel<A>, second: ViewModel<A>)
    requires first.Day? && second.Day?
    requires first.day != second.day
    ensures Select(Select(selectedDay, first), second) == second.day
  {
  }

  /** Every day item of a projection carries a day of the month, so a tap
      on it never carries the "no selection" marker. */
  lemma ProjectedDaysInMonth<A>(m: Month<A>, selectedDay: int, today: int)
    requires m.days >= 0
    ensures var r := Project(MonthObject(m), selectedDay, today);
      forall i :: 0 <= i < |r| && r[i].Day? ==> 1 <= r[i].day <= m.days
  {
    DayItemPositions(m, selectedDay, today);
  }

  /** Taps on items whose days lie within a month keep the selection either
      empty or on one day of that month. */
  lemma {:induction false} RunStaysInMonth<A>(m: Month<A>, selectedDay: int, taps: seq<ViewModel<A>>)
    requires selectedDay == NoSelection || 1 <= selectedDay <= m.days
    requires forall i :: 0 <= i < |taps| && taps[i].Day? ==> 1 <= taps[i].day <= m.days
    ensures var s := Run(selectedDay, taps); s == NoSelection || 1 <= s <= m.days
    decreases |taps|
  {
    if |taps| > 0 {
      var next := Select(selectedDay, taps[0]);
      assert forall i :: 0 <= i < |taps[1..]| ==> taps[1..][i] == taps[i + 1];
      RunStaysInMonth(m, next, taps[1..]);
    }
  }

  /** Taps follow the state machine step by step: the logical state after
      a series of day taps is the state machine's, and taps on other items
      are skipped. */
  lemma {:induction false} RunFollowsStateMachine<A>(selectedDay: int, taps: seq<ViewModel<A>>)
    requires forall i :: 0 <= i < |taps| && taps[i].Day? ==> taps[i].day != NoSelection
    ensures Abs(Run(selectedDay, taps)) == StepAll(Abs(selectedDay), taps)
    decreases |taps|
  {
    if |taps| > 0 {
      assert forall i :: 0 <= i < |taps[1..]| ==> taps[1..][i] == taps[i + 1];
      RunFollowsStateMachine(Select(selectedDay, taps[0]), taps[1..]);
    }
  }

  /** The state machine run over a series of taps, ignoring non-day items. */
  function StepAll<A>(st: State, taps: seq<ViewModel<A>>): State
    decreases |taps|
  {
    if |taps| == 0 then st
    else if taps[0].Day? then StepAll(Step(st, taps[0].day), taps[1..])
    else StepAll(st, taps[1..])
  }

  /** A section that starts without a selection and receives taps on its
      own day items either still has no selection, and then a well-formed
      month shows only its title and days with none selected, or has one of
      the month's days selected, and then that day is marked and exactly its
      appointments follow the days. */
  lemma SingleSelectionAfterTaps<A>(m: Month<A>, taps: seq<ViewModel<A>>, today: int)
    requires WellFormed(m)
    requires forall i :: 0 <= i < |taps| && taps[i].Day? ==> 1 <= taps[i].day <= m.days
    ensures var s := Run(Initial(), taps);
      var r := Project(MonthObject(m), s, today);
      || (&& s == NoSelection
          && |r| == 1 + m.days
          && forall i :: 1 <= i <= m.days ==> !r[i].isSelected)
      || (&& 1 <= s <= m.days
          && r[s].isSelected
          && r[1 + m.days..] == ApptItems(AppointmentsOn(m, s)))
  {
    var s := Run(Initial(), taps);
    RunStaysInMonth(m, Initial(), taps);
    var r := Project(MonthObject(m), s, today);
    var tail := ApptItems(AppointmentsOn(m, s));
    assert |r[1 + m.days..]| == |tail|;
    forall k | 0 <= k < |tail|
      ensures r[1 + m.days..][k] == tail[k]
    {
      assert r[1 + m.days + k] == Appt(AppointmentsOn(m, s)[k]);
    }
  }
}
