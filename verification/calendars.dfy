/**
 * The calendar store (create, update, toggle, active filter), the edit-calendar modal's
 * open/submit around it, and the calendars page's edit and toggle dispatch.
 */
module Calendars {
  import opened Options
  import opened Availability
  import Lists

  datatype Calendar = Calendar(
    id: string,
    name: string,
    description: string,
    color: string,
    is_active: bool,
    availability_hours: StoredHours,
    time_slot_duration: int,
    created_at: string)

  /** The object both calendar modals hand to `onSave`/`onCreate`. */
  datatype CalendarData = CalendarData(
    name: string,
    description: string,
    color: string,
    time_slot_duration: int,
    availability_hours: StoredHours)

  /** The payload's view of a calendar. */
  function DataOf(c: Calendar): CalendarData {
    CalendarData(c.name, c.description, c.color, c.time_slot_duration, c.availability_hours)
  }

  /** `createCalendar`: append one active calendar built from the payload. */
  function Create(cals: seq<Calendar>, data: CalendarData, newId: string, now: string): (r: seq<Calendar>)
    ensures |r| == |cals| + 1 && r[..|cals|] == cals
    ensures var c := r[|cals|];
      c.id == newId && c.is_active && c.created_at == now && DataOf(c) == data
  {
    cals + [Calendar(newId, data.name, data.description, data.color, true,
                     data.availability_hours, data.time_slot_duration, now)]
  }

  /** `{ ...cal, ...calendarData }`: the payload's keys win, id, flag and timestamp stay. */
  function Merge(c: Calendar, data: CalendarData): (r: Calendar)
    ensures DataOf(r) == data
    ensures r.id == c.id && r.is_active == c.is_active && r.created_at == c.created_at
  {
    c.(name := data.name, description := data.description, color := data.color,
       time_slot_duration := data.time_slot_duration, availability_hours := data.availability_hours)
  }

  /** `updateCalendar(id, data)`: merge into the calendars with that id only. */
  function Update(cals: seq<Calendar>, id: string, data: CalendarData): (r: seq<Calendar>)
    ensures |r| == |cals|
    ensures forall i :: 0 <= i < |cals| ==>
      r[i] == if cals[i].id == id then Merge(cals[i], data) else cals[i]
  {
    seq(|cals|, i requires 0 <= i < |cals| => if cals[i].id == id then Merge(cals[i], data) else cals[i])
  }

  /** Updating with a calendar's own data is the identity. */
  lemma UpdateWithOwnData(cals: seq<Calendar>, i: nat)
    requires i < |cals|
    requires forall j :: 0 <= j < |cals| && cals[j].id == cals[i].id ==> cals[j] == cals[i]
    ensures Update(cals, cals[i].id, DataOf(cals[i])) == cals
  {
    var r := Update(cals, cals[i].id, DataOf(cals[i]));
    forall j | 0 <= j < |cals| ensures r[j] == cals[j] {
      if cals[j].id == cals[i].id {
        assert Merge(cals[j], DataOf(cals[j])) == cals[j];
      }
    }
  }

  /** `toggleCalendarStatus(id)`: flip `is_active` on the calendars with that id only. */
  function Toggle(cals: seq<Calendar>, id: string): (r: seq<Calendar>)
    ensures |r| == |cals|
    ensures forall i :: 0 <= i < |cals| ==>
      r[i].(is_active := cals[i].is_active) == cals[i]
      && (r[i].is_active <==> (if cals[i].id == id then !cals[i].is_active else cals[i].is_active))
  {
    seq(|cals|, i requires 0 <= i < |cals| =>
      if cals[i].id == id then cals[i].(is_active := !cals[i].is_active) else cals[i])
  }

  lemma ToggleTwice(cals: seq<Calendar>, id: string)
    ensures Toggle(Toggle(cals, id), id) == cals
  {
  }

  /** `getActiveCalendars`: exactly the active calendars, in list order. */
  function ActiveCalendars(cals: seq<Calendar>): (r: seq<Calendar>)
    ensures forall c :: c in r <==> c in cals && c.is_active
    ensures Lists.IsSubsequence(r, cals)
  {
    Lists.Filter(cals, (c: Calendar) => c.is_active)
  }

  /** Toggling a calendar moves it into or out of the active list and leaves the others. */
  lemma ToggleAndActive(cals: seq<Calendar>, id: string, i: nat)
    requires i < |cals|
    ensures var c := Toggle(cals, id)[i];
      c in ActiveCalendars(Toggle(cals, id)) <==> (if cals[i].id == id then !cals[i].is_active else cals[i].is_active)
  {
    var t := Toggle(cals, id);
    assert t[i] in t;
  }

  // ---- the edit-calendar modal ------------------------------------------------

  /** The modal's `formData` once its effect has run. */
  datatype CalendarForm = CalendarForm(
    name: string,
    description: string,
    color: string,
    time_slot_duration: int,
    hours: FormHours)

  /** The initialising effect: scalar fields copied, hours opened day by day. */
  function OpenModal(c: Calendar): (f: CalendarForm)
    ensures f.name == c.name && f.description == c.description && f.color == c.color
    ensures f.time_slot_duration == c.time_slot_duration
    ensures forall d: Weekday :: d in f.hours && (f.hours[d].enabled <==> d in c.availability_hours)
  {
    CalendarForm(c.name, c.description, c.color, c.time_slot_duration, OpenHours(c.availability_hours))
  }

  /** `handleSubmit`: the scalar fields go through unchanged, the hours are cleaned. */
  function SubmitModal(f: CalendarForm): (data: CalendarData)
    ensures data.name == f.name && data.description == f.description && data.color == f.color
    ensures data.time_slot_duration == f.time_slot_duration
    ensures forall d :: d in data.availability_hours <==> d in f.hours && f.hours[d].enabled
  {
    CalendarData(f.name, f.description, f.color, f.time_slot_duration, SaveHours(f.hours))
  }

  /** Opening and saving untouched gives back the calendar's data, minus any `enabled` keys. */
  lemma SubmitOfOpen(c: Calendar)
    ensures SubmitModal(OpenModal(c)) == DataOf(c).(availability_hours := Strip(c.availability_hours))
  {
    SaveOfOpen(c.availability_hours);
  }

  // ---- the calendars page -----------------------------------------------------

  datatype CalendarsPage = CalendarsPage(cals: seq<Calendar>, selected: Option<Calendar>, showEdit: bool)

  /** `handleEditCalendar`: update the selected calendar if there is one; always close and clear. */
  function HandleEdit(p: CalendarsPage, data: CalendarData): (r: CalendarsPage)
    ensures r.selected.None? && !r.showEdit
    ensures p.selected.None? ==> r.cals == p.cals
    ensures p.selected.Some? ==> r.cals == Update(p.cals, p.selected.value.id, data)
  {
    var cals := if p.selected.Some? then Update(p.cals, p.selected.value.id, data) else p.cals;
    CalendarsPage(cals, None, false)
  }

  /** `handleEditClick`: select the calendar and open the modal. */
  function HandleEditClick(p: CalendarsPage, c: Calendar): (r: CalendarsPage)
    ensures r.cals == p.cals && r.selected == Some(c) && r.showEdit
  {
    p.(selected := Some(c), showEdit := true)
  }

  /** `handleToggleCalendarStatus`: the store's toggle, selection untouched. */
  function HandleToggle(p: CalendarsPage, id: string): (r: CalendarsPage)
    ensures r.cals == Toggle(p.cals, id) && r.selected == p.selected && r.showEdit == p.showEdit
  {
    p.(cals := Toggle(p.cals, id))
  }

  /** Click edit, save untouched: the list is as before, except any stored `enabled` keys. */
  lemma EditRoundTrip(p: CalendarsPage, i: nat)
    requires i < |p.cals|
    requires forall j :: 0 <= j < |p.cals| && p.cals[j].id == p.cals[i].id ==> p.cals[j] == p.cals[i]
    requires forall d :: d in p.cals[i].availability_hours ==> p.cals[i].availability_hours[d].enabled.None?
    ensures HandleEdit(HandleEditClick(p, p.cals[i]), SubmitModal(OpenModal(p.cals[i]))).cals == p.cals
  {
    var c := p.cals[i];
    SubmitOfOpen(c);
    assert Strip(c.availability_hours) == c.availability_hours;
    UpdateWithOwnData(p.cals, i);
  }
}
