# helprs scheduling-admin core in Dafny

This project models the pure logic underneath the helprs organisation-admin screens and the
worker job list. Each React state update is read as a pure function from the old state to
the new one. The model covers:

- **Appointment types** (`AppointmentTypes`). The create and edit modals' validator, their
  calendar and form checkboxes, and the catalog list's create, edit-merge and
  active-flag updates.
- **Appointment creation** (`AppointmentCreation`). The scheduling panel's validation
  (required fields, at least one worker, answered required forms), the nested
  form-response update, the draft and scheduled appointment objects, the worker-count
  input and the customer look-up.
- **Form builder** (`FormBuilder`). The form name check, appending, updating, removing and
  moving fields (with `order_index` renumbering), the per-field option editor, the
  appointment-type checkboxes, and the forms list's create, edit and active-flag updates.
- **Availability** (`Availability`). The edit-calendar modal's conversion between the
  stored weekday map and its seven-row form, and the calendars page's availability strip.
- **Calendars** (`Calendars`). The calendar store's create, update, toggle and
  active-filter operations, the edit modal around them, and the page's edit and toggle
  dispatch.
- **Schedule** (`Schedule`). The schedule page's calendar filter (restore, toggle, reset,
  apply, cancel) and its per-day appointment lookup.
- **Week grid** (`WeekGrid`). The week calendar's 7 × 40 grid and the bucketing of
  appointments into it.
- **Clock and dates** (`Clock`, `Dates`). The shared 15-minute slot grid, "HH:MM" labels,
  end-time arithmetic, and the 7-day and 42-day date windows.
- **Jobs API** (`JobsApi`). The `GET /api/v1/jobs` parameter checks and the projection of
  query rows into job objects.

`Lists`, `Text` and `Options` hold the shared pieces:

- the id-list toggle and `filter`;
- JavaScript's `trim`, ASCII `toLowerCase`, `includes`, number printing and `padStart`;
- an option type.

Modelling conventions:

- Dates are integer day numbers. Day 0 is a Sunday, so `getDay()` is `d % 7`.
- Prices are integer cents.
- `Date.now()` ids and timestamps are parameters.
- The database query of the jobs route is a function parameter.

## Model

| member | source | states |
|---|---|---|
| Lists.Toggle | helprs-web/src/app/dashboard/org-admin/appointments/page.tsx:535-542 | Toggling flips the id's membership and leaves every other id's membership alone. An absent id is appended at the end; a present id is removed everywhere and the rest keep their order. |
| Lists.ToggleTwiceMembership | helprs-web/src/app/dashboard/org-admin/appointments/page.tsx:937-953 | Toggling the same id twice restores which ids are in the list. |
| Lists.ToggleTwiceAbsent | helprs-web/src/app/dashboard/org-admin/appointments/page.tsx:937-953 | Toggling an absent id twice gives back exactly the original list. |
| Lists.ToggleTwicePresentReorders | helprs-web/src/app/dashboard/org-admin/appointments/page.tsx:937-953 | Toggling a present id twice moves it to the end, so the list is not always restored (["a","b"] becomes ["b","a"]). |
| Lists.ToggleKeepsNoDuplicates | helprs-web/src/app/dashboard/org-admin/appointments/page.tsx:535-542 | A toggle never introduces a duplicate id. |
| Lists.Filter | helprs-web/src/contexts/calendar-context.tsx:126-128 | `filter` keeps exactly the elements passing the test, in their original order. |
| Lists.FilterAppend | helprs-web/src/app/dashboard/org-admin/schedule/page.tsx:261-269 | Filtering a concatenation filters each part and concatenates the results. |
| Lists.FilterKeepsNoDuplicates | helprs-web/src/app/dashboard/org-admin/schedule/page.tsx:60-63 | Filtering a duplicate-free list gives a duplicate-free list. |
| Text.Trim | helprs-web/src/app/dashboard/org-admin/appointments/page.tsx:509 | The result of `trim()` is no longer than the input and neither starts nor ends with whitespace. |
| Text.TrimRemovesOnlyEdgeSpace | helprs-web/src/app/dashboard/org-admin/appointments/page.tsx:509 | `trim()` removes only whitespace, from both ends: the input is whitespace, then the result, then whitespace. |
| Text.TrimEmptyIffBlank | helprs-web/src/app/dashboard/org-admin/appointments/page.tsx:509-511 | `!s.trim()` holds exactly when the string is empty or all whitespace. |
| Text.TrimIdempotent | helprs-web/src/app/dashboard/org-admin/forms/page.tsx:1468-1476 | Trimming twice is trimming once. |
| Text.Lower | helprs-web/src/components/scheduling/AppointmentCreationPanel.tsx:311-312 | Lower-casing keeps the length and maps each character on its own: ASCII capitals become lower case, everything else is kept. |
| Text.Contains | helprs-web/src/components/scheduling/AppointmentCreationPanel.tsx:311-312 | `includes` holds exactly when the needle occurs at some offset of the text. |
| Text.ContainsAtOffset | helprs-web/src/components/scheduling/AppointmentCreationPanel.tsx:310-313 | `includes` finds a needle placed at any offset of the text. |
| Text.NatToStringDigits | helprs-web/src/components/calendar/Calendar.tsx:150 | `toString()` of a natural number writes only decimal digits. |
| Text.NatToString | helprs-web/src/components/calendar/Calendar.tsx:150 | `toString()` of a natural number is never empty, and it is one character long exactly for numbers below 10. |
| Text.PadStart2 | helprs-web/src/app/dashboard/org-admin/schedule/page.tsx:153 | `padStart(2, "0")` leaves a string of two or more characters alone and otherwise fills it with leading zeros to length 2, keeping the string at the end. |
| Text.NatToStringRoundTrip | helprs-web/src/components/calendar/Calendar.tsx:150 | `toString()` of a natural number is all digits and reads back as that number. |
| Text.PadNatValue | helprs-web/src/app/dashboard/org-admin/schedule/page.tsx:153 | `padStart(2, '0')` of a number below 100 is two digits with the same value. |
| Clock.ParseClock | helprs-web/src/components/calendar/Calendar.tsx:146 | A start is read only when it is two non-empty digit runs around a colon, and then as the values of those two runs. |
| Clock.LabelChars | helprs-web/src/app/dashboard/org-admin/schedule/page.tsx:153 | For hours and minutes below 100 the label is exactly two digits, a colon and two digits. |
| Clock.LabelRoundTrip | helprs-web/src/components/calendar/Calendar.tsx:146 | Splitting an "HH:MM" label at its colon reads back the hour and minute it was built from. |
| Clock.GenerateTimeSlots | helprs-web/src/app/dashboard/org-admin/schedule/page.tsx:149-158 | The nested hour/minute loops produce exactly the 40-label reference grid. |
| Clock.SlotGridTimes | helprs-web/src/components/calendar/Calendar.tsx:49-58 | Grid label i reads back as 08:00 plus 15·i minutes, with a minute part below 60. |
| Clock.SlotGridEnds | helprs-web/src/app/dashboard/org-admin/schedule/page.tsx:151-153 | The grid runs from "08:00" to "17:45". |
| Clock.SlotGridDistinct | helprs-web/src/components/calendar/Calendar.tsx:49-58 | The 40 grid labels are pairwise distinct. |
| Clock.GridOrder | helprs-web/src/app/dashboard/org-admin/schedule/page.tsx:149-158 | A later grid slot has a label that is later in JavaScript string order. |
| Clock.SlotGridIncreasing | helprs-web/src/app/dashboard/org-admin/schedule/page.tsx:149-158 | The grid labels are strictly increasing in JavaScript string order. |
| Clock.LabelOrder | helprs-web/src/app/dashboard/org-admin/schedule/page.tsx:153 | Zero-padded labels compare as strings exactly as their times compare. |
| Clock.JsRem | helprs-web/src/components/calendar/Calendar.tsx:149 | JavaScript `%` takes the sign of the dividend and agrees with the mathematical remainder on non-negative numbers. |
| Clock.EndLabelOfNat | helprs-web/src/components/calendar/Calendar.tsx:147-150 | For a total that is not negative, rendering with `Math.floor`, JavaScript `%` and `toString` gives the ordinary zero-padded label of its hours and minutes. |
| Clock.EndTimeOfTotal | helprs-web/src/components/calendar/Calendar.tsx:147-150 | For a total that is not negative, the end label is the label of total ÷ 60 and total mod 60, and reads back as exactly that hour and minute. |
| Clock.CalculateEndTime | helprs-web/src/components/calendar/Calendar.tsx:145-151 | For a start label plus a duration that is not negative, the result is the label of the total's hours and minutes, and reads back as that hour and a minute part below 60. |
| Clock.EndTimeNotWrapped | helprs-web/src/components/calendar/Calendar.tsx:147-150 | Hours are not reduced modulo 24: once start plus duration reaches 24 hours, the hour read back is 24 or more ("23:45" plus 45 minutes is "24:30"). |
| Dates.WeekDates | helprs-web/src/app/dashboard/org-admin/schedule/page.tsx:108-118 | The window is 7 consecutive days starting on the Sunday on or before the date, with the date at its weekday position. |
| Dates.WeekDatesUnique | helprs-web/src/components/calendar/Calendar.tsx:63-73 | Any Sunday-started 7-day run holding the date is that window. |
| Dates.MonthDates | helprs-web/src/app/dashboard/org-admin/schedule/page.tsx:120-143 | The window is 42 consecutive days starting on the Sunday on or before the 1st of the month. |
| Dates.MonthDatesCoverMonth | helprs-web/src/app/dashboard/org-admin/schedule/page.tsx:120-143 | Every day of the month, from the 1st to its last day, lies in the 42-day window. |
| Dates.DaysInMonth | helprs-web/src/app/dashboard/org-admin/schedule/page.tsx:127 | The last day of a Gregorian month, `new Date(year, month + 1, 0)`, is day 28 to 31. |
| Dates.DayOfWeek | helprs-web/src/app/dashboard/org-admin/schedule/page.tsx:110 | `getDay()` is a weekday number from 0 to 6. |
| Dates.DayOfWeekNext | helprs-web/src/app/dashboard/org-admin/schedule/page.tsx:110 | The next day has the next weekday number, and Saturday (6) is followed by Sunday (0). |
| AppointmentTypes.ValidationErrors | helprs-web/src/app/dashboard/org-admin/appointments/page.tsx:506-527 | Each key is present exactly when its rule fails: blank name, duration ≤ 0, minimum < 0, base < 0 or base < minimum. The below-minimum message overwrites the negative one. |
| AppointmentTypes.ValidIffRules | helprs-web/src/app/dashboard/org-admin/appointments/page.tsx:908-929 | A form is accepted exactly when the name is non-blank, the duration is positive, both prices are non-negative and base ≥ minimum. |
| AppointmentTypes.EqualPricesAccepted | helprs-web/src/app/dashboard/org-admin/appointments/page.tsx:521-523 | Equal base and minimum prices pass the price rule. |
| AppointmentTypes.NegativeBaseMessageImpliesNegativeMinimum | helprs-web/src/app/dashboard/org-admin/appointments/page.tsx:518-523 | The "base price cannot be negative" message survives only alongside a negative-minimum error. |
| AppointmentTypes.ApplyInput | helprs-web/src/app/dashboard/org-admin/appointments/page.tsx:499-504 | Typing into a field never changes the calendar or form assignments. |
| AppointmentTypes.EditModalStep | helprs-web/src/app/dashboard/org-admin/appointments/page.tsx:937-953 | The edit modal's calendar and form checkboxes toggle their id lists and never throw. |
| AppointmentTypes.CreateModalStep | helprs-web/src/app/dashboard/org-admin/appointments/page.tsx:535-542 | In the create modal a form checkbox throws and changes nothing, while a calendar checkbox toggles. |
| AppointmentTypes.CreateModalNeverAssignsForms | helprs-web/src/app/dashboard/org-admin/appointments/page.tsx:535-542 | No sequence of create-modal actions changes the assigned forms. |
| AppointmentTypes.CreatedFormsAlwaysEmpty | helprs-web/src/app/dashboard/org-admin/appointments/page.tsx:487-496 | A type created through the create modal always has an empty form list. |
| AppointmentTypes.TickingAFormInCreateModal | helprs-web/src/app/dashboard/org-admin/appointments/page.tsx:946-953 | Ticking a form: the create modal as written keeps the list empty, the corrected one assigns the form. |
| AppointmentTypes.FixedCreateModalAgrees | helprs-web/src/app/dashboard/org-admin/appointments/page.tsx:535-542 | Without form ticks the corrected create modal behaves exactly as the one written. |
| AppointmentTypes.FixedCreateModalTogglesForms | helprs-web/src/app/dashboard/org-admin/appointments/page.tsx:946-953 | In the corrected create modal a form is assigned exactly when it was ticked an odd number of times, starting from its initial state. |
| AppointmentTypes.CreateType | helprs-web/src/app/dashboard/org-admin/appointments/page.tsx:97-113 | A valid form appends one active, well-formed type built from it and leaves the existing types alone. An invalid form changes nothing. |
| AppointmentTypes.Merge | helprs-web/src/app/dashboard/org-admin/appointments/page.tsx:119 | The merge takes the form's eight fields and keeps id, active flag and creation time. |
| AppointmentTypes.EditWithoutChangesIsIdentity | helprs-web/src/app/dashboard/org-admin/appointments/page.tsx:115-125 | Saving an untouched edit form gives the type back unchanged. |
| AppointmentTypes.EditType | helprs-web/src/app/dashboard/org-admin/appointments/page.tsx:115-125 | An invalid form changes nothing. A valid one merges into the selected id's entries only, then closes the modal and clears the selection. |
| AppointmentTypes.ToggleTypeStatus | helprs-web/src/app/dashboard/org-admin/appointments/page.tsx:127-133 | Only the active flag of the matching entries flips. |
| AppointmentTypes.ToggleTypeStatusTwice | helprs-web/src/app/dashboard/org-admin/appointments/page.tsx:127-133 | Flipping twice restores the catalog. |
| AppointmentTypes.CreateKeepsWellFormed | helprs-web/src/app/dashboard/org-admin/appointments/page.tsx:97-113 | Creating a type keeps every catalog entry satisfying the validator's rules. |
| AppointmentTypes.EditKeepsWellFormed | helprs-web/src/app/dashboard/org-admin/appointments/page.tsx:115-125 | Editing a type keeps every catalog entry satisfying the validator's rules. |
| AppointmentTypes.ToggleKeepsWellFormed | helprs-web/src/app/dashboard/org-admin/appointments/page.tsx:127-133 | Flipping a type's status keeps every catalog entry satisfying the validator's rules. |
| AppointmentTypes.CatalogStaysWellFormed | helprs-web/src/app/dashboard/org-admin/appointments/page.tsx:97-133 | Create, edit and toggle keep every catalog entry satisfying the validator's rules. |
| AppointmentCreation.FindType | helprs-web/src/components/scheduling/AppointmentCreationPanel.tsx:213 | `find` returns the first type with the id, or nothing exactly when no type has it. |
| AppointmentCreation.MissingAnswers | helprs-web/src/components/scheduling/AppointmentCreationPanel.tsx:213-228 | A field key is reported exactly for a required field of a required form whose answer is missing or empty. |
| AppointmentCreation.BasicErrors | helprs-web/src/components/scheduling/AppointmentCreationPanel.tsx:190-210 | Each of the seven basic keys is reported exactly when its field is empty or the worker count is below 1. |
| AppointmentCreation.Validate | helprs-web/src/components/scheduling/AppointmentCreationPanel.tsx:187-232 | The error set holds each basic key exactly when its check fails. It holds a field key exactly when the type is known and that required answer is missing. |
| AppointmentCreation.ValidIff | helprs-web/src/components/scheduling/AppointmentCreationPanel.tsx:187-232 | The panel accepts exactly when every basic field is filled, at least one worker is asked for, and, for a known type, every required form is answered. |
| AppointmentCreation.SetResponse | helprs-web/src/components/scheduling/AppointmentCreationPanel.tsx:167-178 | The update sets the one answer, starts a new form's answers from `{}`, and leaves every other answer and form as it was. |
| AppointmentCreation.SetResponseAnswers | helprs-web/src/components/scheduling/AppointmentCreationPanel.tsx:167-178 | After the update, that answer is missing exactly when the new value is empty; every other answer reads as before. |
| AppointmentCreation.MissingAnswersAgree | helprs-web/src/components/scheduling/AppointmentCreationPanel.tsx:213-228 | Two answer maps that agree on every field of every required form leave exactly the same fields reported missing. |
| AppointmentCreation.OptionalFormsNotChecked | helprs-web/src/components/scheduling/AppointmentCreationPanel.tsx:213-228 | Answers to forms that are not required never change the validation result. |
| AppointmentCreation.ParseWorkerCount | helprs-web/src/components/scheduling/AppointmentCreationPanel.tsx:620 | `parseInt(v) \|\| 1` is never 0: NaN and 0 become 1, any other number is kept. |
| AppointmentCreation.NegativeWorkerCountRejected | helprs-web/src/components/scheduling/AppointmentCreationPanel.tsx:208-210 | A negative count survives parsing and is then rejected by the at-least-one check. |
| AppointmentCreation.DurationOf | helprs-web/src/components/scheduling/AppointmentCreationPanel.tsx:245 | The duration is the type's base duration when non-zero, and 60 when no type is found or its base duration is 0. |
| AppointmentCreation.Save | helprs-web/src/components/scheduling/AppointmentCreationPanel.tsx:234-308 | An appointment is built exactly when validation passes. It carries the requested status, the panel's calendar, type, customer, worker count and answers, the chosen date or today, the type's duration and the assignment type. The customer name is first name, a space and last name, and the title is that name, " - ", the type's name or "Appointment", and " (Draft)" for a draft. |
| AppointmentCreation.DraftDiffersOnlyInStatusAndTitle | helprs-web/src/components/scheduling/AppointmentCreationPanel.tsx:240-255 | The draft and the scheduled appointment differ only in status and the title's " (Draft)" suffix. |
| AppointmentCreation.MatchesQuery | helprs-web/src/components/scheduling/AppointmentCreationPanel.tsx:311-312 | A customer matches exactly when the lower-cased first name typed occurs at some offset of the lower-cased first name or of the lower-cased last name. |
| AppointmentCreation.FilteredCustomers | helprs-web/src/components/scheduling/AppointmentCreationPanel.tsx:310-313 | The result is exactly the customers whose first or last name contains the typed first name, case-insensitively, in list order. |
| AppointmentCreation.EmptyQueryMatchesAll | helprs-web/src/components/scheduling/AppointmentCreationPanel.tsx:310-313 | With nothing typed, every customer is listed. |
| FormBuilder.NameError | helprs-web/src/app/dashboard/org-admin/forms/page.tsx:467-476 | A form is rejected exactly when its name is blank. |
| FormBuilder.Submit | helprs-web/src/app/dashboard/org-admin/forms/page.tsx:478-485 | The draft and its fields are handed on exactly when the name is not blank. |
| FormBuilder.ToggleAppointmentType | helprs-web/src/app/dashboard/org-admin/forms/page.tsx:516-523 | Only the type's membership flips; the rest of the draft is unchanged. |
| FormBuilder.ToggleAppointmentTypeTwice | helprs-web/src/app/dashboard/org-admin/forms/page.tsx:1063-1070 | Ticking a type twice restores which types are assigned. |
| FormBuilder.ToggleFormStatus | helprs-web/src/app/dashboard/org-admin/forms/page.tsx:114-120 | Only the active flag of the matching forms flips. |
| FormBuilder.ToggleFormStatusTwice | helprs-web/src/app/dashboard/org-admin/forms/page.tsx:114-120 | Flipping twice restores the forms list. |
| FormBuilder.CreateForm | helprs-web/src/app/dashboard/org-admin/forms/page.tsx:87-100 | One active form carrying the draft's values is appended; existing forms are unchanged. |
| FormBuilder.MergeDraft | helprs-web/src/app/dashboard/org-admin/forms/page.tsx:106 | The merge takes the draft's values and keeps id, active flag and creation time. |
| FormBuilder.NewDraft | helprs-web/src/app/dashboard/org-admin/forms/page.tsx:431-437 | The create modal opens with no name, no assigned types and both flags off, so it cannot be submitted before a name is typed. |
| FormBuilder.EditForm | helprs-web/src/app/dashboard/org-admin/forms/page.tsx:102-112 | With no selection nothing changes; otherwise only the forms with the selected id take the draft. |
| FormBuilder.EditUnchangedIsIdentity | helprs-web/src/app/dashboard/org-admin/forms/page.tsx:102-112 | Saving an untouched edit modal leaves every form's own keys as they were. |
| FormBuilder.AddField | helprs-web/src/app/dashboard/org-admin/forms/page.tsx:487-500 | One blank optional field is appended with `order_index` equal to the old length. It gets an empty option list only for dropdown and checkbox-list fields. |
| FormBuilder.UpdateField | helprs-web/src/app/dashboard/org-admin/forms/page.tsx:502-506 | Only the fields with the id change, and only in the keys the patch supplies. |
| FormBuilder.RemoveField | helprs-web/src/app/dashboard/org-admin/forms/page.tsx:508-514 | Exactly the fields with the id are dropped; the others keep their order. |
| FormBuilder.RemoveThenAddDuplicatesOrderIndex | helprs-web/src/app/dashboard/org-admin/forms/page.tsx:1034-1061 | Removing does not renumber, so a field appended afterwards can share an `order_index` with an older one. |
| FormBuilder.SplicePermutes | helprs-web/src/app/dashboard/org-admin/forms/page.tsx:526-528 | Taking an element out and inserting it elsewhere permutes the list. |
| FormBuilder.Renumber | helprs-web/src/app/dashboard/org-admin/forms/page.tsx:531-534 | After renumbering every `order_index` equals its position, and nothing else changes. |
| FormBuilder.MoveField | helprs-web/src/app/dashboard/org-admin/forms/page.tsx:525-537 | After a move, `order_index` runs 0..n-1 and the moved field sits at the target. Every position holds the field the splice puts there. Apart from positions the result is a permutation of the input. |
| FormBuilder.MoveFieldKeepsOthersInOrder | helprs-web/src/app/dashboard/org-admin/forms/page.tsx:1072-1084 | The fields not moved keep their relative order. |
| FormBuilder.MoveUp | helprs-web/src/app/dashboard/org-admin/forms/page.tsx:768 | The up arrow swaps a row with the one above and does nothing on the first row. |
| FormBuilder.MoveDown | helprs-web/src/app/dashboard/org-admin/forms/page.tsx:789 | The down arrow swaps a row with the one below and does nothing on the last row. |
| FormBuilder.MoveUpThenDown | helprs-web/src/app/dashboard/org-admin/forms/page.tsx:1315-1336 | On a numbered list, up then down restores the list exactly. |
| FormBuilder.AddOption | helprs-web/src/app/dashboard/org-admin/forms/page.tsx:1468-1476 | A non-blank entry is appended trimmed and the box is cleared; a blank entry changes nothing. |
| FormBuilder.OpenConfig | helprs-web/src/app/dashboard/org-admin/forms/page.tsx:1457-1461 | A newly mounted editor shows the field's label and required flag, its options or `[]` when it has none, and an empty new-option box. |
| FormBuilder.DropIndex | helprs-web/src/app/dashboard/org-admin/forms/page.tsx:1478-1483 | Filtering by running index removes exactly the element at the index, and an index outside the list removes nothing. |
| FormBuilder.RemoveOption | helprs-web/src/app/dashboard/org-admin/forms/page.tsx:1478-1483 | Exactly the option at the index is removed, and an index outside the list changes nothing. |
| FormBuilder.ConfigPatch | helprs-web/src/app/dashboard/org-admin/forms/page.tsx:1485-1491 | Saving the editor sends the label, required flag and options. |
| FormBuilder.SavingConfigAddsEmptyOptions | helprs-web/src/app/dashboard/org-admin/forms/page.tsx:1456-1491 | Saving a freshly opened editor untouched on a field without options gives it an empty option list. |
| FormBuilder.ShowEditorAsWritten | helprs-web/src/app/dashboard/org-admin/forms/page.tsx:838-846 | As written, showing the editor for a field keeps a mounted editor's state and reads the field only when the editor was not on screen. |
| FormBuilder.ShowEditor | helprs-web/src/app/dashboard/org-admin/forms/page.tsx:838-846 | With the editor keyed by field id, showing another field's editor opens it on that field's values; the same field keeps the edits in progress. |
| FormBuilder.BuilderSave | helprs-web/src/app/dashboard/org-admin/forms/page.tsx:1485-1491 | Saving patches the selected field with the editor's label, flag and options and closes the editor; with no editor on screen the fields are unchanged. |
| FormBuilder.BuilderAddAsWritten | helprs-web/src/app/dashboard/org-admin/forms/page.tsx:487-500 | As written, adding a field selects it, but an editor already on screen keeps the previous field's values. |
| FormBuilder.BuilderAdd | helprs-web/src/app/dashboard/org-admin/forms/page.tsx:487-500 | With a keyed editor, adding a field selects it and, unless the editor already belongs to that id, opens the editor on the new field's values. |
| FormBuilder.BuilderSelectAsWritten | helprs-web/src/app/dashboard/org-admin/forms/page.tsx:744-747 | As written, clicking a row selects that field, but an editor already on screen keeps its values. |
| FormBuilder.BuilderSelect | helprs-web/src/app/dashboard/org-admin/forms/page.tsx:744-747 | With a keyed editor, clicking another field's row opens the editor on that field's values. |
| FormBuilder.AddWhileEditingSavesStaleValues | helprs-web/src/app/dashboard/org-admin/forms/page.tsx:487-500 | As written, adding a field while another field's editor is open and pressing Save gives the new field the edited label, required flag and options. |
| FormBuilder.NewFieldTakesEditedLabel | helprs-web/src/app/dashboard/org-admin/forms/page.tsx:838-846 | Editing field "a" labelled "Email", then adding a textbox and saving, labels the new field "Email". |
| FormBuilder.AddThenSaveUntouched | helprs-web/src/app/dashboard/org-admin/forms/page.tsx:487-500 | With a keyed editor and a fresh id, adding a field and saving its editor untouched keeps the new field blank, except that a missing option list becomes `[]`. The other fields are unchanged. |
| FormBuilder.SelectThenSaveUntouched | helprs-web/src/app/dashboard/org-admin/forms/page.tsx:744-747 | With a keyed editor and unique ids, opening another row and saving untouched changes that field only by turning a missing option list into `[]`. |
| FormBuilder.BuilderMove | helprs-web/src/app/dashboard/org-admin/forms/page.tsx:525-537 | Moving fields on the builder is `MoveField` on its list and leaves the selection alone. |
| FormBuilder.BuilderRemove | helprs-web/src/app/dashboard/org-admin/forms/page.tsx:508-514 | Removing the field being edited closes the editor; removing another leaves it open. |
| FormBuilder.BuilderRemoveKeepsSelectionLive | helprs-web/src/app/dashboard/org-admin/forms/page.tsx:1055-1061 | The open editor always belongs to a field still in the list after a removal. |
| FormBuilder.BuilderAddKeepsSelectionLive | helprs-web/src/app/dashboard/org-admin/forms/page.tsx:1034-1047 | After adding, the open editor belongs to a field in the list. |
| FormBuilder.BuilderMoveKeepsSelectionLive | helprs-web/src/app/dashboard/org-admin/forms/page.tsx:1072-1084 | After a move, the open editor still belongs to a field in the list. |
| Availability.OpenDays | helprs-web/src/components/calendars/EditCalendarModal.tsx:65-80 | Each weekday's row is ticked exactly when the day is stored. Stored days keep their times; absent days get 09:00–17:00. |
| Availability.OpenHours | helprs-web/src/components/calendars/EditCalendarModal.tsx:61-89 | The modal opens with a row for each of the seven weekdays. |
| Availability.UpdateDay | helprs-web/src/components/calendars/EditCalendarModal.tsx:115-126 | One key of one day's row changes and nothing else. |
| Availability.SaveHours | helprs-web/src/components/calendars/EditCalendarModal.tsx:94-104 | Exactly the ticked days are stored, each with only its start and end. |
| Availability.SaveOfOpen | helprs-web/src/components/calendars/EditCalendarModal.tsx:65-104 | Opening and saving untouched keeps every stored day and its times, dropping only an `enabled` key. |
| Availability.OpenOfSave | helprs-web/src/components/calendars/EditCalendarModal.tsx:65-104 | Saving then reopening keeps the ticked rows and resets unticked rows to 09:00–17:00. |
| Availability.StoredDisabledDayReopens | helprs-web/src/components/calendars/EditCalendarModal.tsx:67-72 | A stored `enabled: false` is ignored: the day opens ticked and is saved as open. |
| Availability.EndBeforeStartIsSaved | helprs-web/src/components/calendars/EditCalendarModal.tsx:378-397 | Nothing orders the two selects: a day closing before it opens is stored as chosen. |
| Availability.TimeOptionsSpan | helprs-web/src/components/calendars/EditCalendarModal.tsx:32-37 | The 36 options run every half hour from "06:00" to "23:30". |
| Availability.DaysOfWeekComplete | helprs-web/src/components/calendars/EditCalendarModal.tsx:22-30 | The day list names each of the seven weekdays once. |
| Availability.PreviewStrip | helprs-web/src/app/dashboard/org-admin/calendars/page.tsx:286-289 | The strip's seven cells are Monday to Sunday, each open unless its entry says `enabled: false`. |
| Availability.SavedHoursPreviewAllOpen | helprs-web/src/app/dashboard/org-admin/calendars/page.tsx:289 | Hours saved by the modal never carry `enabled`, so the strip shows every day open. |
| Availability.UntickedDayPreviewedOpen | helprs-web/src/components/calendars/EditCalendarModal.tsx:98-103 | An unticked day is dropped from storage and then shown as open. |
| Availability.PreviewMatchesTickedRows | helprs-web/src/app/dashboard/org-admin/calendars/page.tsx:289 | Under the corrected reading (key present and not disabled) the strip shows exactly the ticked rows. |
| Availability.PreviewMatchesOpenedRows | helprs-web/src/app/dashboard/org-admin/calendars/page.tsx:289 | Under the corrected reading the strip agrees with the rows the modal opens ticked. |
| Calendars.Create | helprs-web/src/contexts/calendar-context.tsx:96-108 | One active calendar carrying the payload is appended; the existing calendars are unchanged. |
| Calendars.Merge | helprs-web/src/contexts/calendar-context.tsx:113 | The merge takes the payload's five keys and keeps id, active flag and creation time. |
| Calendars.Update | helprs-web/src/contexts/calendar-context.tsx:110-116 | Only the calendars with the id take the payload; the length is unchanged. |
| Calendars.UpdateWithOwnData | helprs-web/src/contexts/calendar-context.tsx:110-116 | Updating a calendar with its own data changes nothing. |
| Calendars.Toggle | helprs-web/src/contexts/calendar-context.tsx:118-124 | Only the active flag of the calendars with the id flips. |
| Calendars.ToggleTwice | helprs-web/src/contexts/calendar-context.tsx:118-124 | Toggling twice is the identity. |
| Calendars.ActiveCalendars | helprs-web/src/contexts/calendar-context.tsx:126-128 | Exactly the active calendars are returned, in list order. |
| Calendars.ToggleAndActive | helprs-web/src/contexts/calendar-context.tsx:118-128 | After a toggle a calendar is in the active list exactly when its new flag is set. |
| Calendars.OpenModal | helprs-web/src/components/calendars/EditCalendarModal.tsx:61-89 | The modal copies name, description, color and slot size, and ticks exactly the stored days. |
| Calendars.SubmitModal | helprs-web/src/components/calendars/EditCalendarModal.tsx:91-113 | Name, description, color and slot size pass through unchanged; exactly the ticked days are stored. |
| Calendars.SubmitOfOpen | helprs-web/src/components/calendars/EditCalendarModal.tsx:61-113 | Opening and saving untouched gives back the calendar's data, minus any `enabled` keys. |
| Calendars.HandleEdit | helprs-web/src/app/dashboard/org-admin/calendars/page.tsx:40-46 | An edit is applied only when a calendar is selected; the modal is always closed and the selection cleared. |
| Calendars.HandleEditClick | helprs-web/src/app/dashboard/org-admin/calendars/page.tsx:52-55 | Clicking edit selects the calendar and opens the modal. |
| Calendars.HandleToggle | helprs-web/src/app/dashboard/org-admin/calendars/page.tsx:48-50 | The page's toggle is the store's toggle and leaves the selection alone. |
| Calendars.EditRoundTrip | helprs-web/src/app/dashboard/org-admin/calendars/page.tsx:40-55 | Clicking edit and saving untouched leaves the calendar list unchanged. |
| Schedule.Reload | helprs-web/src/app/dashboard/org-admin/schedule/page.tsx:18-19 | A fresh mount starts with both selections empty and keeps the stored preference. |
| Schedule.Restore | helprs-web/src/app/dashboard/org-admin/schedule/page.tsx:53-72 | With no active calendar nothing changes. Without a stored preference both selections are all active ids in order. Otherwise they are the stored ids that are still active, in stored order. The preference itself is not changed. |
| Schedule.RestoredIdsAreActive | helprs-web/src/app/dashboard/org-admin/schedule/page.tsx:60-63 | Every restored id belongs to an active calendar. |
| Schedule.ToggleTemp | helprs-web/src/app/dashboard/org-admin/schedule/page.tsx:80-86 | The toggle flips the id's membership in the panel's selection only. |
| Schedule.ToggleTempTwice | helprs-web/src/app/dashboard/org-admin/schedule/page.tsx:80-86 | Toggling twice restores the panel's membership and never touches the applied selection. |
| Schedule.ResetTemp | helprs-web/src/app/dashboard/org-admin/schedule/page.tsx:88-90 | Reset selects exactly the active calendars in the panel. |
| Schedule.ApplyAsWritten | helprs-web/src/app/dashboard/org-admin/schedule/page.tsx:92-96 | As written, apply copies the panel's selection to the applied one but stores the selection that was applied before. |
| Schedule.ReloadAfterApplyAsWritten | helprs-web/src/app/dashboard/org-admin/schedule/page.tsx:74-96 | As written, after an apply and a reload the page shows the selection from before the apply, limited to active calendars. |
| Schedule.UntickedCalendarReturnsAfterReload | helprs-web/src/app/dashboard/org-admin/schedule/page.tsx:74-96 | With "a" and "b" applied, unticking "b" and applying shows ["a"], but a reload shows ["a", "b"] again. |
| Schedule.Apply | helprs-web/src/app/dashboard/org-admin/schedule/page.tsx:92-96 | Apply copies the panel's selection to the applied one and stores that same selection as the preference. |
| Schedule.ReloadAfterApply | helprs-web/src/app/dashboard/org-admin/schedule/page.tsx:53-96 | After an apply and a reload the page shows the applied selection, less calendars no longer active; if all of them are still active it is exactly the applied selection. |
| Schedule.Cancel | helprs-web/src/app/dashboard/org-admin/schedule/page.tsx:98-101 | Cancel resets the panel to the applied selection. |
| Schedule.ToggleAll | helprs-web/src/app/dashboard/org-admin/schedule/page.tsx:80-86 | Any run of panel toggles leaves the applied selection and the stored preference alone. |
| Schedule.CancelDiscardsToggles | helprs-web/src/app/dashboard/org-admin/schedule/page.tsx:80-101 | Any toggles followed by cancel leave the state as cancelling alone would. |
| Schedule.ApplyCancelAgree | helprs-web/src/app/dashboard/org-admin/schedule/page.tsx:92-101 | Cancel after apply changes nothing. Apply after cancel leaves both selections at the applied one and stores it. |
| Schedule.ApplyAfterToggle | helprs-web/src/app/dashboard/org-admin/schedule/page.tsx:80-96 | Toggle then apply flips the id in the applied selection. |
| Schedule.AppointmentsForDate | helprs-web/src/app/dashboard/org-admin/schedule/page.tsx:261-269 | The result is exactly the appointments of either list on that day whose calendar is applied, in list order. |
| Schedule.AppointmentOnOneDay | helprs-web/src/app/dashboard/org-admin/schedule/page.tsx:263-269 | An appointment is listed on its own day only. |
| Schedule.DeselectedCalendarHidden | helprs-web/src/app/dashboard/org-admin/schedule/page.tsx:80-96 | Unticking a calendar and applying hides all its appointments. |
| WeekGrid.Column | helprs-web/src/components/calendar/Calendar.tsx:83-89 | A column has the 40 grid labels, each holding exactly the appointments of that day starting at that label. |
| WeekGrid.GenerateCalendarData | helprs-web/src/components/calendar/Calendar.tsx:78-91 | The grid has seven columns whose dates form the Sunday-started week. |
| WeekGrid.CellMembership | helprs-web/src/components/calendar/Calendar.tsx:78-91 | An appointment is in a cell exactly when its date is that column's day and its start is that cell's label. |
| WeekGrid.AtMostOneCell | helprs-web/src/components/calendar/Calendar.tsx:83-89 | No appointment appears in two cells. |
| WeekGrid.OnGridShown | helprs-web/src/components/calendar/Calendar.tsx:63-91 | An appointment of the week whose start is a grid label appears in the cell of its weekday. |
| WeekGrid.OffGridHidden | helprs-web/src/components/calendar/Calendar.tsx:83-89 | An appointment whose start time is not a grid label appears in no cell. |
| JobsApi.ParseQuery | helprs-web/src/app/api/v1/jobs/route.ts:9-18 | A query is made exactly when `company_id` is present and non-empty; the status filter is the parameter or 'open'. |
| JobsApi.WorkersOrOne | helprs-web/src/app/api/v1/jobs/route.ts:56-57 | `worker_count \|\| 1` is never 0: the stored count when non-zero, else 1. |
| JobsApi.AcceptedCount | helprs-web/src/app/api/v1/jobs/route.ts:58 | The first `job_workers` count, else 0. |
| JobsApi.Project | helprs-web/src/app/api/v1/jobs/route.ts:45-74 | Each job copies the row's listed columns and joins. Its required and worker counts are equal and never 0, and its accepted count is the first aggregate. |
| JobsApi.ProjectionInjectiveOnColumns | helprs-web/src/app/api/v1/jobs/route.ts:45-74 | The projection drops only the key columns and the raw counts. |
| JobsApi.ProjectAll | helprs-web/src/app/api/v1/jobs/route.ts:45 | There is one job per row, in query order. |
| JobsApi.Get | helprs-web/src/app/api/v1/jobs/route.ts:7-88 | Without `company_id` the answer is 400. A query error is 500 with no jobs. Otherwise the jobs are the rows' projections in order (none for null data) and `count` is their number. |
| JobsApi.MissingCompanyNeverQueries | helprs-web/src/app/api/v1/jobs/route.ts:13-18 | Without `company_id` the answer does not depend on the database. |
| JobsApi.JobsNeverRequireZeroWorkers | helprs-web/src/app/api/v1/jobs/route.ts:56-57 | No job of a successful answer requires zero workers. |
| JobsApi.NegativeWorkerCountPassesThrough | helprs-web/src/app/api/v1/jobs/route.ts:56 | The default replaces only 0 and null, so a negative count passes through. |

## Left out

- Rendering, styling, hover handlers and navigation are UI only.
- The Supabase query of the jobs route and the `localStorage` persistence of appointments are I/O. The database query is a parameter of `JobsApi.Get`. The calendar-filter preference is modelled as the value last written, the `saved` field of `Schedule.FilterState`; JSON encoding is not modelled, and a signed-in user is assumed, so every write happens.
- `Date.now()` ids and `new Date().toISOString()` timestamps are non-deterministic, so they are parameters.
- JavaScript `Date`, time zones and `toLocaleDateString` are not modelled: dates are day numbers with `getDay()` as `d % 7`, which is what a UTC time zone gives. Elsewhere the source shifts days in three places. (1) The week grid (Calendar.tsx:86-87) and the schedule page's day look-ups (schedule/page.tsx:265-266, :867-868 and :937-938) parse a date-only `apt.date` as UTC midnight and compare it by local `toDateString()`, so west of UTC every listed appointment, the mock ones (schedule/page.tsx:221-258) included, shows one day early. (2) The creation panel (AppointmentCreationPanel.tsx:243 and :281) stores `toISOString().split('T')[0]` of a local midnight, which is the previous day east of UTC. (3) Together, in any zone other than UTC, an appointment created for a date is shown one day early: east of UTC because it is stored a day early, west of UTC because it is read back a day early. WeekGrid.CellMembership, AppointmentCreation.Save, Schedule.AppointmentsForDate, Schedule.AppointmentOnOneDay and Schedule.DeselectedCalendarHidden hold only under the day-number reading.
- `parseFloat` prices are floating point, so prices are integer cents. `parseInt`/`parseFloat` themselves are not modelled: a number input arrives as an integer or as NaN (`None`).
- Text.Lower: `toLowerCase` is modelled on ASCII letters only, because full Unicode case mapping is out of scope; non-ASCII capitals are kept as they are.
- The worker-accept endpoint and its threshold and status logic are not part of this model. No code checks a scheduled time against a calendar's availability window or slot size, so there is nothing to model there.
- Keys of `availability_hours` other than the seven weekday names are not modelled.
- The panel's error messages are not modelled: `AppointmentCreation.Validate` reports the set of failing keys.
- `handleInputChange` in the forms and scheduling modals clears an error message to `''` while typing. This UI feedback is not modelled.
- The mock data lists (`mockCustomers`, mock forms and appointments, mock calendars) are page fixtures, so functions take the lists as parameters.
- The week calendar's drag-and-drop update and its appointment loading are database I/O.
- `selectedField` in the form builder is a snapshot. It goes stale after an update, but the option editor never reads it again after mounting, so only which field is selected matters.
- Clock.ParseClock: reads only the strict shape of two digit runs around one colon. `split(':').map(Number)` also reads ":30" as 0:30, "9:30:15" as 9:30 and " 9:30" as 9:30; for those inputs the model returns `None`.
- Clock.CalculateEndTime: requires a start made of two digit runs around one colon. Starts that `Number()` still reads are excluded: ":30" reads as 0:30 because `Number("")` is 0, "9:30:15" as 9:30 because the third part is ignored, and " 9:30" as 9:30 because spaces are allowed. Starts that give NaN are excluded too. The ensures cover only a total that is not negative. Nothing in the source calls `calculateEndTime`; it is only defined, at Calendar.tsx:145.
- AppointmentCreation.Save: the date is a day number or `None`. Clearing the date input stores `new Date('')`, an Invalid Date; the next render's `toISOString()` then throws a RangeError, and so would saving. The panel breaks and nothing is emitted. That state is not modelled.
- FormBuilder.MergeDraft: edit submit sends `{...formData, fields}`, so the stored form also gains a `fields` key. `Form` has no such key, so `FormBuilder.EditUnchangedIsIdentity` holds for the form's own keys only.
- FormBuilder.MergeDraft: the edit modal reloads its fields from `mockFields[form.id]` each time it opens, so field edits are never kept between openings. The fixture lists are not modelled.
- FormBuilder.MoveField: requires both indices to be row positions. The page only calls it from the row arrows, whose guards keep both in range.
- JobsApi.Get: the `catch` branch is modelled as a query outcome that throws. Exceptions from other sources, such as URL parsing, are folded into it.

## Findings

| source | as written | input that shows it | evidently intended | confidence | as-written member | corrected member |
|---|---|---|---|---|---|---|
| helprs-web/src/app/dashboard/org-admin/appointments/page.tsx:813 | The create modal's form checkboxes call `toggleForm`, which only the edit modal defines (:946), so ticking one throws and no form can be assigned at creation | Ticking form "f1" in the create modal: the assigned forms stay `[]` | The create modal toggles forms as the edit modal does | high, not executed | AppointmentTypes.CreatedFormsAlwaysEmpty | AppointmentTypes.FixedCreateModalTogglesForms |
| helprs-web/src/app/dashboard/org-admin/schedule/page.tsx:94 | `applyCalendarFilter` calls `saveCalendarPreferences`, which stores `selectedCalendars` from the same render, the selection from before the apply | "a" and "b" applied; untick "b" and apply: the page shows ["a"], the stored preference is ["a","b"], and a reload shows both again | The newly applied selection is stored | high, not executed | Schedule.UntickedCalendarReturnsAfterReload | Schedule.ReloadAfterApply |
| helprs-web/src/app/dashboard/org-admin/forms/page.tsx:839 | `FieldConfiguration` is rendered without a `key`, so its `useState` initial values are read only when it mounts; selecting or adding another field while it is open keeps the previous field's values | Editing field "a" labelled "Email", add a textbox and press Save: the new field is labelled "Email" | The editor shows, and saves, the field that is selected | high, not executed | FormBuilder.AddWhileEditingSavesStaleValues | FormBuilder.AddThenSaveUntouched |
| helprs-web/src/app/dashboard/org-admin/calendars/page.tsx:289 | The availability strip treats a missing weekday as open (`?.enabled !== false`), but the edit modal stores an unticked day by dropping it | Untick Saturday and save: Saturday is absent from the stored map and the strip shows it open | A day is shown open when it is stored and not disabled | high, not executed | Availability.UntickedDayPreviewedOpen | Availability.PreviewMatchesTickedRows |
