# Month section controller, modelled in Dafny

This project models the logic of `MonthSectionController` from the IGListKit
iOS examples. The controller renders one calendar month as one section of a
collection view, and it has three pieces of logic:

- **Projection.** It turns a `Month` into an ordered list of view-model items:
  - first, the month title;
  - then one day item per day `1..days`, each carrying whether it is today,
    whether it is selected, and how many appointments it has;
  - then the appointments stored under the selected day.

  Any object that is not a month projects to the empty list.
- **Selection.** `selectedDay` is a single integer, and `-1` means no day is
  selected. A tap on the selected day clears the selection. A tap on any other
  day selects that day. A tap on an item that is not a day changes nothing.
- **Cell kind.** Day items get a calendar-day cell. The title gets a
  month-title cell. Every other item gets a label cell.

Files and modules:

- `calendar.dfy`, module `Calendar`: `Month`, the object handed to the
  controller (`SectionObject`: a month or anything else), and the view-model
  items (`ViewModel`: `MonthTitle`, `Day`, `Appt`). Appointments are an opaque
  type parameter `A`.
- `projection.dfy`, module `Projection`: `Project` and an item-by-item
  description of its result (`IsProjection`), proved equivalent in both
  directions. It also holds the lemmas about the flags, ordering and tail of a
  projection.
- `cells.dfy`, module `Cells`: the cell-kind choice.
- `selection.dfy`, module `Selection`: the selection transition `Select`, the
  two-state machine it implements (`Unselected` / `Selected(day)`), and the
  toggle laws.

"Today" is a parameter of `Project`. The source reads it from the clock.

Two edge cases of the code are stated as lemmas:

- **The `-1` key.** With `selectedDay == -1`, the lookup at
  MonthSectionController.swift:50 still uses `-1` as a key. So appointments
  stored under `-1` are shown while no day is selected
  (`Projection.StrayKeyLeaks`). For months whose keys all lie in `1..days`,
  none is shown (`Projection.NoAppointmentsWithoutSelection`).
- **Day count and month changes.** `Month` does not bound `days`, and
  `days == 0` yields no day items. The controller does not reset
  `selectedDay` when the month changes. `Projection.StaleSelection` states
  what a selection beyond the last day shows.

## Model

| member | source | states |
|---|---|---|
| `Selection.Initial` | Examples/Examples-iOS/IGListKitExamples/SectionControllers/MonthSectionController.swift:20 | a new controller starts in the logical state "no day selected" |
| `Calendar.AppointmentsOn` | Examples/Examples-iOS/IGListKitExamples/SectionControllers/MonthSectionController.swift:50 | the appointments stored under a key, or none when the key is absent (`?? []`); a month whose keys lie in `1..days` has none outside its days |
| `Projection.DayItem` | Examples/Examples-iOS/IGListKitExamples/SectionControllers/MonthSectionController.swift:41-46 | the item of a day carries that day; its count is zero iff the day has no stored appointments (`?.count ?? 0`); when the day is the selected one its count equals the number of appointments shown after the days |
| `Projection.Project` | Examples/Examples-iOS/IGListKitExamples/SectionControllers/MonthSectionController.swift:30-55 | an object that is not a month gives no items; for a month with a non-negative day count, the result meets the item-by-item description: title first, day `d` at position `d` with `isToday` iff `d` is today, `isSelected` iff `d` is the selected day and count equal to the appointments stored under `d` (0 when absent), then exactly the selected day's appointments in stored order; length `1 + days + |appointments[selectedDay]|` |
| `Projection.DayItems` | Examples/Examples-iOS/IGListKitExamples/SectionControllers/MonthSectionController.swift:40-48 | the day loop yields exactly `n` items, and item `i` is the item of day `i + 1` |
| `Projection.ApptItems` | Examples/Examples-iOS/IGListKitExamples/SectionControllers/MonthSectionController.swift:50-52 | the appointment loop yields one item per appointment, in the same order |
| `Projection.ProjectionIsUnique` | Examples/Examples-iOS/IGListKitExamples/SectionControllers/MonthSectionController.swift:36-54 | any list that meets the item-by-item description is the projection, so the description and the loops agree in both directions |
| `Projection.DayItemPositions` | Examples/Examples-iOS/IGListKitExamples/SectionControllers/MonthSectionController.swift:38-52 | day items occupy exactly positions `1..days`, and each carries the day equal to its position, so days ascend without gaps |
| `Projection.DayFlags` | Examples/Examples-iOS/IGListKitExamples/SectionControllers/MonthSectionController.swift:41-46 | at most one day item is today and at most one is selected; one is today iff today lies in `1..days`; one is selected iff `selectedDay` lies in `1..days`; none is selected when `selectedDay == -1` |
| `Projection.NoAppointmentsWithoutSelection` | Examples/Examples-iOS/IGListKitExamples/SectionControllers/MonthSectionController.swift:50-52 | with no selection, a well-formed month shows only its title and days: no appointment item |
| `Projection.StaleSelection` | Examples/Examples-iOS/IGListKitExamples/SectionControllers/MonthSectionController.swift:40-52 | a selection beyond the last day of a well-formed month marks no day and shows no appointments |
| `Projection.StrayKeyLeaks` | Examples/Examples-iOS/IGListKitExamples/SectionControllers/MonthSectionController.swift:50 | the lookup uses `-1` as a key: appointments stored under `-1` appear while nothing is selected |
| `Projection.ThreeDayExample` | Examples/Examples-iOS/IGListKitExamples/SectionControllers/MonthSectionController.swift:36-54 | a 3-day month with two appointments on day 2, with day 2 selected, projects to title, three days (day 2 selected with count 2), then the two appointments |
| `Cells.CellKindFor` | Examples/Examples-iOS/IGListKitExamples/SectionControllers/MonthSectionController.swift:57-65 | the choice is total: a day cell iff a day item, a title cell iff the title, a label cell iff anything else |
| `Cells.ProjectionCellKinds` | Examples/Examples-iOS/IGListKitExamples/SectionControllers/MonthSectionController.swift:57-65 | in a month's projection the first cell is a title cell, cells `1..days` are day cells, and the rest are label cells |
| `Selection.Select` | Examples/Examples-iOS/IGListKitExamples/SectionControllers/MonthSectionController.swift:83-89 | a tap on a non-day item leaves the selection unchanged; a tap on a day other than `-1` moves the logical state as the two-state machine does (select the day, or deselect it when it was selected); a tap on day `-1` leaves no selection |
| `Selection.Run` | Examples/Examples-iOS/IGListKitExamples/SectionControllers/MonthSectionController.swift:83-89 | after successive taps, the selection is the starting one, none, or a day that was tapped; taps on non-day items alone never change it |
| `Selection.TapTwice` | Examples/Examples-iOS/IGListKitExamples/SectionControllers/MonthSectionController.swift:84-89 | tapping any day item twice restores the selection iff it was none or that day; from any other selection it ends with none |
| `Selection.TapSwitch` | Examples/Examples-iOS/IGListKitExamples/SectionControllers/MonthSectionController.swift:84-89 | tapping a day item `d1` then one with a different day `d2` leaves `d2` selected, from any state |
| `Selection.ProjectedDaysInMonth` | Examples/Examples-iOS/IGListKitExamples/SectionControllers/MonthSectionController.swift:40-42 | every day item of a projection carries a day in `1..days`, never the `-1` marker |
| `Selection.RunStaysInMonth` | Examples/Examples-iOS/IGListKitExamples/SectionControllers/MonthSectionController.swift:83-89 | taps on days of a month keep the selection either none or one day of that month |
| `Selection.RunFollowsStateMachine` | Examples/Examples-iOS/IGListKitExamples/SectionControllers/MonthSectionController.swift:83-89 | over any series of taps, the integer selection tracks the two-state machine, with non-day taps skipped |
| `Selection.SingleSelectionAfterTaps` | Examples/Examples-iOS/IGListKitExamples/SectionControllers/MonthSectionController.swift:20-89 | starting from no selection, after any taps on a well-formed month's own days, either nothing is selected and only the title and days are shown with no day marked, or one day `s` of the month is selected, its item is marked, and exactly its appointments follow the days |

## Left out

- The current date (lines 33-34): `Date()` and `Calendar.current` read the clock. "Today" is a parameter of `Project` instead, so the projection is deterministic.
- Cell dequeuing and the `UICollectionViewCell` fallback (line 66): collection-view plumbing. Only the choice of cell kind is modelled.
- Item sizes (lines 69-78): the square day cell's side is the container width divided by 7, in floating point. The fixed heights are 30 for the title and 55 for other items.
- `update(animated:)` (line 90) and the binding section controller's diffing: these live in the IGListKit library. IGListKit is not part of this model.
- The initializer's wiring of `dataSource` and `selectionDelegate` (lines 22-26): this only registers the controller with the library.
- `Month`, `DayViewModel`, `MonthTitleViewModel` and the appointment type are defined in files that are not part of this model. They are modelled abstractly, with the appointment type as a type parameter.
- `Projection.Project`: requires a non-negative day count. The Swift range `1..<(days + 1)` traps for a negative count, and it traps on 64-bit overflow when `days` is `Int.max`. The integer width is not modelled.
- The tapped item's index (line 83): it is passed to the selection handler but not used there, so `Selection.Select` takes only the item.
