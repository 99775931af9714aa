/**
 * The schedule page's calendar filter (an applied selection and the one being edited in
 * the filter panel) and its per-day appointment lookup.
 */
module Schedule {
  import opened Options
  import Lists
  import Calendars

  /** The ids of a list of calendars, in order. */
  function IdsOf(cals: seq<Calendars.Calendar>): (r: seq<string>)
    ensures |r| == |cals| && forall i :: 0 <= i < |cals| ==> r[i] == cals[i].id
  {
    seq(|cals|, i requires 0 <= i < |cals| => cals[i].id)
  }

  /**
   * `selectedCalendars` (applied), `tempSelectedCalendars` (in the open panel) and the
   * preference stored under `helprs_calendar_filter_<user>`, `None` when nothing is stored.
   * A signed-in user is assumed, so every write of the preference happens.
   */
  datatype FilterState = FilterState(applied: seq<string>, temp: seq<string>, saved: Option<seq<string>>)

  /** A fresh mount of the page: both selections start empty, the stored preference survives. */
  function Reload(s: FilterState): (r: FilterState)
    ensures r.saved == s.saved && r.applied == [] && r.temp == []
  {
    FilterState([], [], s.saved)
  }

  /**
   * The restoring effect. `available` is `getActiveCalendars()`; the stored preference is
   * read back as it was written. With no active calendar the effect does nothing.
   */
  function Restore(s: FilterState, available: seq<Calendars.Calendar>): (r: FilterState)
    ensures |available| == 0 ==> r == s
    ensures r.saved == s.saved
    ensures |available| > 0 ==> r.applied == r.temp
    ensures |available| > 0 && s.saved.None? ==> r.applied == IdsOf(available)
    ensures |available| > 0 && s.saved.Some? ==>
      (forall id :: id in r.applied <==> id in s.saved.value && id in IdsOf(available))
      && Lists.IsSubsequence(r.applied, s.saved.value)
  {
    if |available| == 0 then s
    else
      var ids := IdsOf(available);
      var chosen := if s.saved.Some? then Lists.Filter(s.saved.value, (id: string) => id in ids) else ids;
      s.(applied := chosen, temp := chosen)
  }

  /** After a restore, every applied id belongs to an active calendar. */
  lemma RestoredIdsAreActive(s: FilterState, cals: seq<Calendars.Calendar>, id: string)
    requires |Calendars.ActiveCalendars(cals)| > 0
    requires id in Restore(s, Calendars.ActiveCalendars(cals)).applied
    ensures exists c :: c in cals && c.is_active && c.id == id
  {
    var available := Calendars.ActiveCalendars(cals);
    assert id in IdsOf(available);
    var i :| 0 <= i < |available| && IdsOf(available)[i] == id;
    assert available[i] in available;
  }

  /** `handleCalendarToggle`: flip one id in the panel's selection; the applied one is untouched. */
  function ToggleTemp(s: FilterState, id: string): (r: FilterState)
    ensures r.applied == s.applied
    ensures id in r.temp <==> id !in s.temp
    ensures forall x :: x != id ==> (x in r.temp <==> x in s.temp)
  {
    s.(temp := Lists.Toggle(s.temp, id))
  }

  lemma ToggleTempTwice(s: FilterState, id: string)
    ensures var r := ToggleTemp(ToggleTemp(s, id), id);
      r.applied == s.applied && forall x :: x in r.temp <==> x in s.temp
  {
  }

  /** `resetToAllCalendars`: the panel selects every active calendar. */
  function ResetTemp(s: FilterState, available: seq<Calendars.Calendar>): (r: FilterState)
    ensures r.applied == s.applied
    ensures forall id :: id in r.temp <==> exists c :: c in available && c.id == id
  {
    var r := s.(temp := IdsOf(available));
    assert forall id :: id in r.temp ==> exists c :: c in available && c.id == id by {
      forall id | id in r.temp ensures exists c :: c in available && c.id == id {
        var i :| 0 <= i < |available| && r.temp[i] == id;
        assert available[i] in available;
      }
    }
    r
  }

  /**
   * `applyCalendarFilter` as written: the panel's selection becomes the applied one, but
   * `saveCalendarPreferences` reads `selectedCalendars` from the same render, before the
   * state update lands, so it stores the selection that was applied until now.
   */
  function ApplyAsWritten(s: FilterState): (r: FilterState)
    ensures r.applied == s.temp && r.temp == s.temp
    ensures r.saved == Some(s.applied)
  {
    s.(applied := s.temp, saved := Some(s.applied))
  }

  /** After an apply as written and a reload, the page comes back to the selection before the apply. */
  lemma ReloadAfterApplyAsWritten(s: FilterState, available: seq<Calendars.Calendar>)
    requires |available| > 0
    ensures forall id :: id in Restore(Reload(ApplyAsWritten(s)), available).applied <==>
      id in s.applied && id in IdsOf(available)
  {
  }

  /**
   * Two active calendars "a" and "b", both applied: untick "b" and apply. The page shows
   * only "a", yet after a reload it shows "a" and "b" again.
   */
  lemma UntickedCalendarReturnsAfterReload()
    ensures var a := Calendars.Calendar("a", "A", "", "", true, map[], 30, "");
      var b := Calendars.Calendar("b", "B", "", "", true, map[], 30, "");
      var s := ToggleTemp(FilterState(["a", "b"], ["a", "b"], None), "b");
      ApplyAsWritten(s).applied == ["a"]
      && Restore(Reload(ApplyAsWritten(s)), [a, b]).applied == ["a", "b"]
  {
    var a := Calendars.Calendar("a", "A", "", "", true, map[], 30, "");
    var b := Calendars.Calendar("b", "B", "", "", true, map[], 30, "");
    var s := ToggleTemp(FilterState(["a", "b"], ["a", "b"], None), "b");
    assert s.temp == ["a"] by {
      assert Lists.Filter(["a", "b"], (y: string) => y != "b") == ["a"];
    }
    assert IdsOf([a, b]) == ["a", "b"];
  }

  /** `applyCalendarFilter` with the new selection saved: what is applied is what is stored. */
  function Apply(s: FilterState): (r: FilterState)
    ensures r.applied == s.temp && r.temp == s.temp
    ensures r.saved == Some(r.applied)
  {
    s.(applied := s.temp, saved := Some(s.temp))
  }

  /**
   * After an apply and a reload the page shows the applied selection again, less any
   * calendar that has since stopped being active.
   */
  lemma ReloadAfterApply(s: FilterState, available: seq<Calendars.Calendar>)
    requires |available| > 0
    ensures forall id :: id in Restore(Reload(Apply(s)), available).applied <==>
      id in Apply(s).applied && id in IdsOf(available)
    ensures (forall id :: id in s.temp ==> id in IdsOf(available)) ==>
      Restore(Reload(Apply(s)), available).applied == Apply(s).applied
  {
  }

  /** `cancelCalendarFilter`: the panel goes back to the applied selection. */
  function Cancel(s: FilterState): (r: FilterState)
    ensures r.applied == s.applied && r.temp == s.applied
  {
    s.(temp := s.applied)
  }

  /** Toggles followed by cancel are forgotten. */
  lemma CancelDiscardsToggles(s: FilterState, ids: seq<string>)
    ensures Cancel(ToggleAll(s, ids)) == Cancel(s)
  {
    assert ToggleAll(s, ids).applied == s.applied;
  }

  /** A run of panel toggles. */
  function ToggleAll(s: FilterState, ids: seq<string>): (r: FilterState)
    ensures r.applied == s.applied && r.saved == s.saved
    decreases |ids|
  {
    if |ids| == 0 then s else ToggleAll(ToggleTemp(s, ids[0]), ids[1..])
  }

  /** Once applied, a toggled id's membership is flipped in the applied selection. */
  lemma ApplyAfterToggle(s: FilterState, id: string)
    ensures id in Apply(ToggleTemp(s, id)).applied <==> id !in s.temp
  {
  }

  /** Applying or cancelling leaves the panel and the page in agreement. */
  lemma ApplyCancelAgree(s: FilterState)
    ensures Cancel(Apply(s)) == Apply(s)
    ensures Apply(Cancel(s)) == Cancel(s).(saved := Some(s.applied))
  {
  }

  // ---- appointments for a day -------------------------------------------------

  /** The fields of a schedule appointment the lookup reads; `date` is a day number. */
  datatype Appointment = Appointment(
    id: string,
    title: string,
    date: int,
    time: string,
    duration: int,
    calendarId: string,
    customerName: string)

  /**
   * `getAppointmentsForDate(date)` over `[...mockAppointments, ...appointments]`: the
   * appointments on that day whose calendar is in the applied selection, in list order.
   */
  function AppointmentsForDate(mock: seq<Appointment>, stored: seq<Appointment>, s: FilterState, day: int): (r: seq<Appointment>)
    ensures forall a :: a in r <==> (a in mock || a in stored) && a.date == day && a.calendarId in s.applied
    ensures Lists.IsSubsequence(r, mock + stored)
  {
    Lists.Filter(mock + stored, (a: Appointment) => a.date == day && a.calendarId in s.applied)
  }

  /** Each appointment is listed on its own day only. */
  lemma AppointmentOnOneDay(mock: seq<Appointment>, stored: seq<Appointment>, s: FilterState, a: Appointment, d1: int, d2: int)
    requires a in AppointmentsForDate(mock, stored, s, d1) && a in AppointmentsForDate(mock, stored, s, d2)
    ensures d1 == d2 == a.date
  {
  }

  /** Unticking a calendar and applying hides its appointments. */
  lemma DeselectedCalendarHidden(mock: seq<Appointment>, stored: seq<Appointment>, s: FilterState, id: string, day: int)
    requires id in s.temp
    ensures forall a :: a in AppointmentsForDate(mock, stored, Apply(ToggleTemp(s, id)), day) ==> a.calendarId != id
  {
  }
}
