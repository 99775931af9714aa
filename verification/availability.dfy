/**
 * A calendar's weekly opening hours: the form the edit-calendar modal keeps per weekday,
 * the map it stores back, and the availability strip the calendars page shows.
 */
module Availability {
  import opened Options
  import Clock

  datatype Weekday = Monday | Tuesday | Wednesday | Thursday | Friday | Saturday | Sunday

  /** `DAYS_OF_WEEK`, in the modal's order. */
  const DaysOfWeek: seq<Weekday> := [Monday, Tuesday, Wednesday, Thursday, Friday, Saturday, Sunday]

  lemma DaysOfWeekComplete()
    ensures forall d: Weekday :: d in DaysOfWeek
    ensures |DaysOfWeek| == 7
    ensures forall i, j :: 0 <= i < j < 7 ==> DaysOfWeek[i] != DaysOfWeek[j]
  {
    forall d: Weekday ensures d in DaysOfWeek {
      match d
      case Monday => assert DaysOfWeek[0] == d;
      case Tuesday => assert DaysOfWeek[1] == d;
      case Wednesday => assert DaysOfWeek[2] == d;
      case Thursday => assert DaysOfWeek[3] == d;
      case Friday => assert DaysOfWeek[4] == d;
      case Saturday => assert DaysOfWeek[5] == d;
      case Sunday => assert DaysOfWeek[6] == d;
    }
  }

  /** One stored day. `enabled` is a key the modal never writes but the preview reads. */
  datatype StoredDay = StoredDay(start: string, end: string, enabled: Option<bool>)

  /** `availability_hours`, restricted to the seven weekday keys. */
  type StoredHours = map<Weekday, StoredDay>

  /** One row of the modal: the checkbox and the two time selects. */
  datatype FormDay = FormDay(start: string, end: string, enabled: bool)

  type FormHours = map<Weekday, FormDay>

  const DefaultStart := "09:00"
  const DefaultEnd := "17:00"

  /** The row a day opens with: its stored times if the key is present, else 09:00-17:00 unticked. */
  function OpenDay(stored: StoredHours, d: Weekday): FormDay {
    if d in stored then FormDay(stored[d].start, stored[d].end, true)
    else FormDay(DefaultStart, DefaultEnd, false)
  }

  /** The `DAYS_OF_WEEK.forEach` of the modal's initialising effect, over a list of days. */
  function OpenDays(stored: StoredHours, days: seq<Weekday>): (form: FormHours)
    ensures form.Keys == set d | d in days
    ensures forall d :: d in days ==> (form[d].enabled <==> d in stored)
    ensures forall d :: d in days && d in stored ==>
      form[d].start == stored[d].start && form[d].end == stored[d].end
    ensures forall d :: d in days && d !in stored ==>
      form[d].start == DefaultStart && form[d].end == DefaultEnd
  {
    if |days| == 0 then map[]
    else OpenDays(stored, days[..|days| - 1])[days[|days| - 1] := OpenDay(stored, days[|days| - 1])]
  }

  /** The rows the modal opens with: one per weekday. */
  function OpenHours(stored: StoredHours): (form: FormHours)
    ensures forall d: Weekday :: d in form
  {
    DaysOfWeekComplete();
    OpenDays(stored, DaysOfWeek)
  }

  /** `updateAvailabilityHours(day, field, value)`: one key of one row. */
  datatype DayEdit = SetStart(start: string) | SetEnd(end: string) | SetEnabled(enabled: bool)

  function UpdateDay(form: FormHours, d: Weekday, e: DayEdit): (r: FormHours)
    requires d in form
    ensures r.Keys == form.Keys
    ensures forall o :: o in form && o != d ==> r[o] == form[o]
    ensures match e
      case SetStart(s) => r[d] == form[d].(start := s)
      case SetEnd(s) => r[d] == form[d].(end := s)
      case SetEnabled(b) => r[d] == form[d].(enabled := b)
  {
    var row := form[d];
    form[d := match e
      case SetStart(s) => row.(start := s)
      case SetEnd(s) => row.(end := s)
      case SetEnabled(b) => row.(enabled := b)]
  }

  /** `handleSubmit`'s clean-up: ticked rows keep their times, unticked rows are dropped. */
  function SaveHours(form: FormHours): (stored: StoredHours)
    ensures forall d :: d in stored <==> d in form && form[d].enabled
    ensures forall d :: d in stored ==>
      stored[d].start == form[d].start && stored[d].end == form[d].end && stored[d].enabled.None?
  {
    map d | d in form && form[d].enabled :: StoredDay(form[d].start, form[d].end, None)
  }

  /** The stored hours without the `enabled` key. */
  function Strip(stored: StoredHours): StoredHours {
    map d | d in stored :: stored[d].(enabled := None)
  }

  /** Opening and saving untouched keeps every stored day and its times. */
  lemma SaveOfOpen(stored: StoredHours)
    ensures SaveHours(OpenHours(stored)) == Strip(stored)
  {
  }

  /** Saving then reopening keeps the ticked rows and resets the unticked ones to the default. */
  lemma OpenOfSave(form: FormHours)
    requires forall d: Weekday :: d in form
    ensures forall d: Weekday ::
      OpenHours(SaveHours(form))[d] == if form[d].enabled then form[d] else FormDay(DefaultStart, DefaultEnd, false)
  {
  }

  /** A stored `enabled: false` is not read: the day opens ticked and is saved as open. */
  lemma StoredDisabledDayReopens(stored: StoredHours, d: Weekday)
    requires d in stored && stored[d].enabled == Some(false)
    ensures OpenHours(stored)[d].enabled
    ensures d in SaveHours(OpenHours(stored))
  {
  }

  /** Nothing orders the two selects: a day that closes before it opens is saved as it is. */
  lemma EndBeforeStartIsSaved(form: FormHours)
    requires forall d: Weekday :: d in form
    ensures var f := UpdateDay(UpdateDay(UpdateDay(form, Monday, SetEnabled(true)), Monday, SetStart("17:00")), Monday, SetEnd("09:00"));
      var s := SaveHours(f);
      Monday in s && s[Monday].start == "17:00" && s[Monday].end == "09:00"
  {
  }

  /** `TIME_OPTIONS`: every half hour from 06:00 to 23:30. */
  function TimeOptions(): (r: seq<string>)
    ensures |r| == 36
  {
    seq(36, i requires 0 <= i < 36 => Clock.Label(6 + i / 2, (i % 2) * 30))
  }

  lemma TimeOptionsSpan()
    ensures TimeOptions()[0] == "06:00" && TimeOptions()[35] == "23:30"
    ensures forall i :: 0 <= i < 36 ==>
      Clock.ParseClock(TimeOptions()[i]) == Some((6 + i / 2, (i % 2) * 30))
  {
    forall i | 0 <= i < 36
      ensures Clock.ParseClock(TimeOptions()[i]) == Some((6 + i / 2, (i % 2) * 30))
    {
      Clock.LabelRoundTrip(6 + i / 2, (i % 2) * 30);
    }
    assert Clock.Label(6, 0) == "06:00";
    assert Clock.Label(23, 30) == "23:30";
  }

  // ---- the calendars page's availability strip --------------------------------

  /** `availability_hours[dayKey]?.enabled !== false`: only an explicit `false` reads as closed. */
  predicate PreviewOpen(stored: StoredHours, d: Weekday) {
    !(d in stored && stored[d].enabled == Some(false))
  }

  /** The strip, Mon to Sun. */
  function PreviewStrip(stored: StoredHours): (r: seq<bool>)
    ensures |r| == 7
    ensures forall i :: 0 <= i < 7 ==> (r[i] <==> PreviewOpen(stored, DaysOfWeek[i]))
  {
    seq(7, i requires 0 <= i < 7 => PreviewOpen(stored, DaysOfWeek[i]))
  }

  /** Hours saved by the modal never carry `enabled`, so the strip shows every day open,
      including the days the admin unticked. */
  lemma SavedHoursPreviewAllOpen(form: FormHours, d: Weekday)
    ensures PreviewOpen(SaveHours(form), d)
  {
  }

  lemma UntickedDayPreviewedOpen(form: FormHours)
    requires forall d: Weekday :: d in form
    ensures var f := UpdateDay(form, Saturday, SetEnabled(false));
      Saturday !in SaveHours(f) && PreviewOpen(SaveHours(f), Saturday)
  {
  }

  /** The strip as the modal's data means it: a day is open when its key is present and not
      explicitly disabled. */
  predicate PreviewOpenPresent(stored: StoredHours, d: Weekday) {
    d in stored && stored[d].enabled != Some(false)
  }

  /** With that reading the strip shows exactly the ticked rows. */
  lemma PreviewMatchesTickedRows(form: FormHours, d: Weekday)
    requires d in form
    ensures PreviewOpenPresent(SaveHours(form), d) <==> form[d].enabled
  {
  }

  /** ...and it agrees with the modal about stored hours: open exactly when the row opens ticked,
      unless an explicit `false` is stored. */
  lemma PreviewMatchesOpenedRows(stored: StoredHours, d: Weekday)
    requires d !in stored || stored[d].enabled != Some(false)
    ensures PreviewOpenPresent(stored, d) <==> OpenHours(stored)[d].enabled
  {
  }
}
