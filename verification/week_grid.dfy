/**
 * The week view's grid: seven day columns from Sunday, each with the 40 quarter-hour
 * slots, and every appointment bucketed into the slot whose day and label it matches.
 */
module WeekGrid {
  import Lists
  import Dates
  import Clock

  datatype Status = Confirmed | Pending | Cancelled

  /** The fields of a grid appointment the bucketing reads; `date` is a day number. */
  datatype Appointment = Appointment(
    id: string,
    title: string,
    date: int,
    startTime: string,
    endTime: string,
    status: Status)

  datatype Cell = Cell(time: string, appointments: seq<Appointment>)

  datatype DayColumn = DayColumn(date: int, slots: seq<Cell>)

  /** One column: the grid's labels, each with the appointments of that day starting on it. */
  function Column(day: int, apts: seq<Appointment>): (col: DayColumn)
    ensures col.date == day && |col.slots| == 40
    ensures forall j :: 0 <= j < 40 ==> col.slots[j].time == Clock.SlotGrid()[j]
    ensures forall j, a :: 0 <= j < 40 ==>
      (a in col.slots[j].appointments <==> a in apts && a.date == day && a.startTime == Clock.SlotGrid()[j])
  {
    var grid := Clock.SlotGrid();
    DayColumn(day, seq(40, j requires 0 <= j < 40 =>
      Cell(grid[j], Lists.Filter(apts, (a: Appointment) => a.date == day && a.startTime == grid[j]))))
  }

  /** `generateCalendarData()` for the week holding `anchor`. */
  function GenerateCalendarData(anchor: int, apts: seq<Appointment>): (r: seq<DayColumn>)
    ensures |r| == 7
    ensures forall i :: 0 <= i < 7 ==> r[i] == Column(Dates.WeekDates(anchor)[i], apts)
    ensures Dates.IsSundayWeek(seq(7, i requires 0 <= i < 7 => r[i].date))
  {
    var week := Dates.WeekDates(anchor);
    var r := seq(7, i requires 0 <= i < 7 => Column(week[i], apts));
    assert seq(7, i requires 0 <= i < 7 => r[i].date) == week;
    r
  }

  /** An appointment is in cell (i, j) exactly when it falls on column i's day and starts at label j. */
  lemma CellMembership(anchor: int, apts: seq<Appointment>, a: Appointment, i: nat, j: nat)
    requires i < 7 && j < 40
    ensures var r := GenerateCalendarData(anchor, apts);
      a in r[i].slots[j].appointments <==>
        a in apts && a.date == Dates.WeekDates(anchor)[i] && a.startTime == Clock.SlotGrid()[j]
  {
  }

  /** No appointment is shown twice. */
  lemma AtMostOneCell(anchor: int, apts: seq<Appointment>, a: Appointment, i1: nat, j1: nat, i2: nat, j2: nat)
    requires i1 < 7 && j1 < 40 && i2 < 7 && j2 < 40
    requires var r := GenerateCalendarData(anchor, apts);
      a in r[i1].slots[j1].appointments && a in r[i2].slots[j2].appointments
    ensures i1 == i2 && j1 == j2
  {
    CellMembership(anchor, apts, a, i1, j1);
    CellMembership(anchor, apts, a, i2, j2);
    Clock.SlotGridDistinct();
  }

  /** An appointment of the week whose start is a grid label is shown in its cell. */
  lemma OnGridShown(anchor: int, apts: seq<Appointment>, a: Appointment, j: nat)
    requires a in apts && a.date in Dates.WeekDates(anchor) && j < 40 && a.startTime == Clock.SlotGrid()[j]
    ensures var r := GenerateCalendarData(anchor, apts);
      a in r[Dates.DayOfWeek(a.date)].slots[j].appointments
  {
    Dates.WeekDatesUnique(a.date, Dates.WeekDates(anchor));
    CellMembership(anchor, apts, a, Dates.DayOfWeek(a.date), j);
  }

  /** A start time off the quarter-hour grid (say "09:10" or "18:00") is shown nowhere. */
  lemma OffGridHidden(anchor: int, apts: seq<Appointment>, a: Appointment, i: nat, j: nat)
    requires a.startTime !in Clock.SlotGrid() && i < 7 && j < 40
    ensures a !in GenerateCalendarData(anchor, apts)[i].slots[j].appointments
  {
    CellMembership(anchor, apts, a, i, j);
  }
}
