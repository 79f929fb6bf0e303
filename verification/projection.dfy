/** The projection of a month onto its view-model items: the month title,
    one item per day, then the appointments of the selected day. The day of
    the month that counts as "today" is a parameter. */
module Projection {
  import opened Calendar

  /** The item for day `day` of month `m`. Its count is zero exactly when
      the day has no stored appointments, and when the day is the selected
      one its count is the number of appointments shown after the days. */
  function DayItem<A>(m: Month<A>, day: int, selectedDay: int, today: int): (r: ViewModel<A>)
    ensures r.Day? && r.day == day
    ensures r.count == 0 <==> day !in m.appointments || |m.appointments[day]| == 0
    ensures r.isSelected ==> r.count == |AppointmentsOn(m, selectedDay)|
  {
    Day(day, day == today, day == selectedDay, |AppointmentsOn(m, day)|)
  }

  /** The items of days 1 to `n`, in ascending order. */
  function DayItems<A>(m: Month<A>, selectedDay: int, today: int, n: nat): (r: seq<ViewModel<A>>)
    ensures |r| == n
    ensures forall i :: 0 <= i < n ==> r[i] == DayItem(m, i + 1, selectedDay, today)
  {
    if n == 0 then [] else DayItems(m, selectedDay, today, n - 1) + [DayItem(m, n, selectedDay, today)]
  }

  /** One item per appointment, in the order given. */
  function ApptItems<A>(appts: seq<A>): (r: seq<ViewModel<A>>)
    ensures |r| == |appts|
    ensures forall k :: 0 <= k < |appts| ==> r[k] == Appt(appts[k])
  {
    if |appts| == 0 then [] else [Appt(appts[0])] + ApptItems(appts[1..])
  }

  /** What a projection of month `m` is, stated item by item: the title
      first; at position `d`, for each day `d` of the month, the item of that
      day with its flags and appointment count; after the days, exactly the
      appointments stored under `selectedDay`. */
  ghost predicate IsProjection<A>(m: Month<A>, selectedDay: int, today: int, r: seq<ViewModel<A>>)
    requires m.days >= 0
  {
    var tail := AppointmentsOn(m, selectedDay);
    && |r| == 1 + m.days + |tail|
    && r[0] == MonthTitle(m.name)
    && (forall d :: 1 <= d <= m.days ==>
          && r[d].Day?
          && r[d].day == d
          && (r[d].isToday <==> d == today)
          && (r[d].isSelected <==> d == selectedDay)
          && r[d].count == |AppointmentsOn(m, d)|)
    && (forall k :: 0 <= k < |tail| ==> r[1 + m.days + k] == Appt(tail[k]))
  }

  /** The view models of the section for `obj`. Any object that is not a
      month has no items; a month must not have a negative day count, since
      the range of its days cannot be formed then. */
  function Project<A>(obj: SectionObject<A>, selectedDay: int, today: int): (r: seq<ViewModel<A>>)
    requires obj.MonthObject? ==> obj.month.days >= 0
    ensures obj.OtherObject? ==> r == []
    ensures obj.MonthObject? ==> IsProjection(obj.month, selectedDay, today, r)
  {
    match obj
    case OtherObject => []
    case MonthObject(m) =>
      LayoutIsProjection(m, selectedDay, today);
      [MonthTitle(m.name)]
      + DayItems(m, selectedDay, today, m.days)
      + ApptItems(AppointmentsOn(m, selectedDay))
  }

  /** The title, the day items and the appointment items, in that order,
      form a projection. */
  lemma LayoutIsProjection<A>(m: Month<A>, selectedDay: int, today: int)
    requires m.days >= 0
    ensures IsProjection(m, selectedDay, today,
      [MonthTitle(m.name)] + DayItems(m, selectedDay, today, m.days) + ApptItems(AppointmentsOn(m, selectedDay)))
  {
    var days := DayItems(m, selectedDay, today, m.days);
    var appts := ApptItems(AppointmentsOn(m, selectedDay));
    var r := [MonthTitle(m.name)] + days + appts;
    forall d | 1 <= d <= m.days
      ensures r[d] == DayItem(m, d, selectedDay, today)
    {
      assert r[d] == days[d - 1];
    }
    forall k | 0 <= k < |appts|
      ensures r[1 + m.days + k] == appts[k]
    {
    }
  }

  /** The item-by-item description determines the projection: any list that
      meets it is the one `Project` returns. */
  lemma ProjectionIsUnique<A>(m: Month<A>, selectedDay: int, today: int, r: seq<ViewModel<A>>)
    requires m.days >= 0
    requires IsProjection(m, selectedDay, today, r)
    ensures r == Project(MonthObject(m), selectedDay, today)
  {
    var p := Project(MonthObject(m), selectedDay, today);
    forall i | 0 <= i < |r|
      ensures r[i] == p[i]
    {
      if 1 <= i <= m.days {
        assert r[i] == DayItem(m, i, selectedDay, today);
      } else if i > m.days {
        var tail := AppointmentsOn(m, selectedDay);
        assert r[1 + m.days + (i - 1 - m.days)] == Appt(tail[i - 1 - m.days]);
      }
    }
  }

  /** Every day item of a projection lies at the position of its day, so the
      days run 1, 2, ... without gaps, and only positions 1 to `days` hold
      day items. */
  lemma DayItemPositions<A>(m: Month<A>, selectedDay: int, today: int)
    requires m.days >= 0
    ensures var r := Project(MonthObject(m), selectedDay, today);
      forall i :: 0 <= i < |r| ==> (r[i].Day? <==> 1 <= i <= m.days)
    ensures var r := Project(MonthObject(m), selectedDay, today);
      forall i :: 0 <= i < |r| && r[i].Day? ==> r[i].day == i
  {
    var r := Project(MonthObject(m), selectedDay, today);
    var tail := AppointmentsOn(m, selectedDay);
    assert IsProjection(m, selectedDay, today, r);
    forall i | 0 <= i < |r|
      ensures r[i].Day? <==> 1 <= i <= m.days
      ensures r[i].Day? ==> r[i].day == i
    {
      if i == 0 {
        assert r[0] == MonthTitle(m.name);
      } else if i <= m.days {
        assert r[i].Day? && r[i].day == i;
      } else {
        var k := i - 1 - m.days;
        assert 0 <= k < |tail|;
        assert r[1 + m.days + k] == Appt(tail[k]);
      }
    }
  }

  /** At most one day item is marked as today, and exactly one is when
      today falls within the month; likewise for the selected day, so no day
      is marked selected when there is no selection. */
  lemma DayFlags<A>(m: Month<A>, selectedDay: int, today: int)
    requires m.days >= 0
    ensures var r := Project(MonthObject(m), selectedDay, today);
      forall i, j :: 1 <= i <= m.days && 1 <= j <= m.days && r[i].isToday && r[j].isToday ==> i == j
    ensures var r := Project(MonthObject(m), selectedDay, today);
      (exists i :: 1 <= i <= m.days && r[i].isToday) <==> 1 <= today <= m.days
    ensures var r := Project(MonthObject(m), selectedDay, today);
      forall i, j :: 1 <= i <= m.days && 1 <= j <= m.days && r[i].isSelected && r[j].isSelected ==> i == j
    ensures var r := Project(MonthObject(m), selectedDay, today);
      (exists i :: 1 <= i <= m.days && r[i].isSelected) <==> 1 <= selectedDay <= m.days
    ensures selectedDay == NoSelection ==>
      var r := Project(MonthObject(m), selectedDay, today);
      forall i :: 1 <= i <= m.days ==> !r[i].isSelected
  {
    var r := Project(MonthObject(m), selectedDay, today);
    if 1 <= today <= m.days {
      assert r[today].isToday;
    }
    if 1 <= selectedDay <= m.days {
      assert r[selectedDay].isSelected;
    }
  }

  /** With no day selected, a well-formed month shows only its title and its
      days: no appointment item appears. */
  lemma NoAppointmentsWithoutSelection<A>(m: Month<A>, today: int)
    requires WellFormed(m)
    ensures var r := Project(MonthObject(m), NoSelection, today);
      && |r| == 1 + m.days
      && forall i :: 0 <= i < |r| ==> !r[i].Appt?
  {
    DayItemPositions(m, NoSelection, today);
  }

  /** A selection carried over from a longer month selects no day of a
      shorter well-formed month and shows none of its appointments. */
  lemma StaleSelection<A>(m: Month<A>, selectedDay: int, today: int)
    requires WellFormed(m)
    requires selectedDay > m.days
    ensures var r := Project(MonthObject(m), selectedDay, today);
      && |r| == 1 + m.days
      && forall i :: 1 <= i <= m.days ==> !r[i].isSelected
  {
  }

  /** The lookup uses the selected value as a key even when it is the "no
      selection" marker: a month that stores appointments under -1 shows
      them while no day is selected. */
  lemma StrayKeyLeaks<A>(a: A, today: int)
    ensures Project(MonthObject(Month("", 0, map[NoSelection := [a]])), NoSelection, today)
         == [MonthTitle(""), Appt(a)]
  {
    var m := Month("", 0, map[NoSelection := [a]]);
    ProjectionIsUnique(m, NoSelection, today, [MonthTitle(""), Appt(a)]);
  }

  /** A three-day month with two appointments on day 2, with day 2
      selected and today outside the month. */
  lemma ThreeDayExample<A>(a: A, b: A)
    ensures Project(MonthObject(Month("M", 3, map[2 := [a, b]])), 2, 0)
         == [ MonthTitle("M"),
              Day(1, false, false, 0),
              Day(2, false, true, 2),
              Day(3, false, false, 0),
              Appt(a), Appt(b) ]
  {
    var m := Month("M", 3, map[2 := [a, b]]);
    ProjectionIsUnique(m, 2, 0,
      [MonthTitle("M"), Day(1, false, false, 0), Day(2, false, true, 2), Day(3, false, false, 0), Appt(a), Appt(b)]);
  }
}
