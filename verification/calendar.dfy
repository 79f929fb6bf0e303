/** The data the month section controller works on: a month with its
    appointments, the object handed to the controller, and the view-model
    items the controller produces from it. */
module Calendar {

  /** The value of `selectedDay` that stands for "no day selected". */
  const NoSelection: int := -1

  /** A month: its display name, how many days it has, and for each day
      number the appointments of that day in their stored order.
      Appointments are opaque values of type `A`; each one is itself a
      view-model item of the section. */
  datatype Month<A> = Month(name: string, days: int, appointments: map<int, seq<A>>)

  /** The object the controller is asked to project: a month, or a value of
      any other type. */
  datatype SectionObject<A> = MonthObject(month: Month<A>) | OtherObject

  /** The view-model items of a month section: the title, one item per day,
      and the appointments of the selected day. */
  datatype ViewModel<A> =
    | MonthTitle(name: string)
    | Day(day: int, isToday: bool, isSelected: bool, count: nat)
    | Appt(appointment: A)

  /** The appointments stored under `day`, or none when the key is absent.
      A well-formed month has none outside its own days. */
  function AppointmentsOn<A>(m: Month<A>, day: int): (r: seq<A>)
    ensures day in m.appointments ==> r == m.appointments[day]
    ensures day !in m.appointments ==> r == []
    ensures WellFormed(m) && !(1 <= day <= m.days) ==> r == []
  {
    if day in m.appointments then m.appointments[day] else []
  }

  /** A month whose day count is not negative and whose appointments are
      only stored under its own days. */
  ghost predicate WellFormed<A>(m: Month<A>)
  {
    && m.days >= 0
    && forall d :: d in m.appointments ==> 1 <= d <= m.days
  }
}
