/**
 * The scheduling panel that creates an appointment from the schedule page: its
 * validation, the nested form-response update, the draft/scheduled appointment object it
 * emits, the worker-count input and the customer look-up filter.
 */
module AppointmentCreation {
  import opened Options
  import opened Text
  import Lists
  import AT = AppointmentTypes

  datatype CustomerInfo = CustomerInfo(firstName: string, lastName: string, phone: string, email: string)

  datatype Customer = Customer(id: string, first_name: string, last_name: string, phone: string, email: string)

  /** A form field as the panel sees it: only the parts validation reads. */
  datatype FieldDef = FieldDef(id: string, fieldLabel: string, required: bool)

  /** An intake form as the panel sees it. */
  datatype FormDef = FormDef(id: string, name: string, form_required: bool, fields: seq<FieldDef>)

  /** Answers keyed by form id, then by field id; every input stores `e.target.value`, a string. */
  type Responses = map<string, map<string, string>>

  /** The panel's `formData`. `scheduledDate` is a day number; `None` is a null date. */
  datatype PanelForm = PanelForm(
    calendarId: string,
    appointmentTypeId: string,
    customerInfo: CustomerInfo,
    workerCount: int,
    assignmentType: AT.AssignmentType,
    scheduledDate: Option<int>,
    scheduledTime: string,
    formResponses: Responses)

  /** The keys `validateForm` can write; `FieldKey` stands for `form_${formId}_${fieldId}`. */
  datatype ErrorKey =
    | CalendarKey | TypeKey | FirstNameKey | LastNameKey | PhoneKey | EmailKey | WorkerCountKey
    | FieldKey(formId: string, fieldId: string)

  /** `types.find(apt => apt.id === id)`: the first type with this id. */
  function FindType(types: seq<AT.AppointmentType>, id: string): (r: Option<AT.AppointmentType>)
    ensures r.Some? ==> r.value in types && r.value.id == id
    ensures r.None? <==> forall t :: t in types ==> t.id != id
    ensures r.Some? ==> exists i :: 0 <= i < |types| && types[i] == r.value && forall j :: 0 <= j < i ==> types[j].id != id
  {
    if |types| == 0 then None
    else if types[0].id == id then Some(types[0])
    else
      var r := FindType(types[1..], id);
      if r.Some? then
        var i :| 0 <= i < |types[1..]| && types[1..][i] == r.value && forall j :: 0 <= j < i ==> types[1..][j].id != id;
        assert types[i + 1] == r.value;
        r
      else r
  }

  /** `!formResponses[formId]?.[fieldId]`: no answer, or the empty answer. */
  predicate Unanswered(responses: Responses, formId: string, fieldId: string) {
    !(formId in responses && fieldId in responses[formId] && responses[formId][fieldId] != "")
  }

  /** The required fields of required forms that are still unanswered. */
  function MissingAnswers(forms: seq<FormDef>, responses: Responses): (keys: set<ErrorKey>)
    ensures forall k :: k in keys ==> k.FieldKey?
    ensures forall a, b :: FieldKey(a, b) in keys <==>
      exists form, field :: form in forms && field in form.fields && form.form_required
           && field.required && form.id == a && field.id == b && Unanswered(responses, a, b)
  {
    set form, field | form in forms && field in form.fields && form.form_required && field.required
                      && Unanswered(responses, form.id, field.id) :: FieldKey(form.id, field.id)
  }

  /**
   * `validateForm`: the seven basic checks, then, only when the chosen id names a known
   * appointment type, every required field of every `form_required` form.
   */
  function Validate(f: PanelForm, types: seq<AT.AppointmentType>, forms: seq<FormDef>): (errs: set<ErrorKey>)
    ensures CalendarKey in errs <==> f.calendarId == ""
    ensures TypeKey in errs <==> f.appointmentTypeId == ""
    ensures FirstNameKey in errs <==> f.customerInfo.firstName == ""
    ensures LastNameKey in errs <==> f.customerInfo.lastName == ""
    ensures PhoneKey in errs <==> f.customerInfo.phone == ""
    ensures EmailKey in errs <==> f.customerInfo.email == ""
    ensures WorkerCountKey in errs <==> f.workerCount < 1
    ensures forall a, b :: FieldKey(a, b) in errs <==>
      FindType(types, f.appointmentTypeId).Some?
      && exists form, field :: form in forms && field in form.fields && form.form_required
           && field.required && form.id == a && field.id == b && Unanswered(f.formResponses, a, b)
  {
    BasicErrors(f) + (if FindType(types, f.appointmentTypeId).Some? then MissingAnswers(forms, f.formResponses) else {})
  }

  /** Whether the check behind a form-independent key fails (`if (!formData.x) newErrors.x = ...`). */
  predicate BasicCheckFails(f: PanelForm, k: ErrorKey) {
    match k
    case CalendarKey => f.calendarId == ""
    case TypeKey => f.appointmentTypeId == ""
    case FirstNameKey => f.customerInfo.firstName == ""
    case LastNameKey => f.customerInfo.lastName == ""
    case PhoneKey => f.customerInfo.phone == ""
    case EmailKey => f.customerInfo.email == ""
    case WorkerCountKey => f.workerCount < 1
    case FieldKey(_, _) => false
  }

  /** The seven checks that do not depend on the forms. */
  function BasicErrors(f: PanelForm): (errs: set<ErrorKey>)
    ensures forall k :: k in errs ==> !k.FieldKey?
    ensures CalendarKey in errs <==> f.calendarId == ""
    ensures TypeKey in errs <==> f.appointmentTypeId == ""
    ensures FirstNameKey in errs <==> f.customerInfo.firstName == ""
    ensures LastNameKey in errs <==> f.customerInfo.lastName == ""
    ensures PhoneKey in errs <==> f.customerInfo.phone == ""
    ensures EmailKey in errs <==> f.customerInfo.email == ""
    ensures WorkerCountKey in errs <==> f.workerCount < 1
  {
    var keys := {CalendarKey, TypeKey, FirstNameKey, LastNameKey, PhoneKey, EmailKey, WorkerCountKey};
    set k | k in keys && BasicCheckFails(f, k)
  }

  /** `Object.keys(newErrors).length === 0`. */
  predicate IsValid(f: PanelForm, types: seq<AT.AppointmentType>, forms: seq<FormDef>) {
    |Validate(f, types, forms)| == 0
  }

  /** Every required field of every required form has a non-empty answer. */
  predicate RequiredFormsAnswered(forms: seq<FormDef>, responses: Responses) {
    forall form, field :: form in forms && field in form.fields && form.form_required && field.required
      ==> !Unanswered(responses, form.id, field.id)
  }

  /** The panel accepts exactly when all basic fields are filled, at least one worker is asked
      for, and, if the type is known, the required forms are answered. */
  lemma ValidIff(f: PanelForm, types: seq<AT.AppointmentType>, forms: seq<FormDef>)
    ensures IsValid(f, types, forms) <==>
      f.calendarId != "" && f.appointmentTypeId != ""
      && f.customerInfo.firstName != "" && f.customerInfo.lastName != ""
      && f.customerInfo.phone != "" && f.customerInfo.email != ""
      && f.workerCount >= 1
      && (FindType(types, f.appointmentTypeId).Some? ==> RequiredFormsAnswered(forms, f.formResponses))
  {
    var errs := Validate(f, types, forms);
    if !RequiredFormsAnswered(forms, f.formResponses) && FindType(types, f.appointmentTypeId).Some? {
      var form, field :| form in forms && field in form.fields && form.form_required && field.required
        && Unanswered(f.formResponses, form.id, field.id);
      assert FieldKey(form.id, field.id) in errs;
    }
  }

  /**
   * `handleFormResponseChange`: sets `formResponses[formId][fieldId]` and nothing else;
   * a form with no answers yet starts from `{}`.
   */
  function SetResponse(responses: Responses, formId: string, fieldId: string, value: string): (r: Responses)
    ensures r.Keys == responses.Keys + {formId}
    ensures fieldId in r[formId] && r[formId][fieldId] == value
    ensures formId in responses ==> r[formId].Keys == responses[formId].Keys + {fieldId}
    ensures formId !in responses ==> r[formId].Keys == {fieldId}
    ensures forall g :: g in r[formId] && g != fieldId ==> g in responses[formId] && r[formId][g] == responses[formId][g]
    ensures forall k :: k in responses && k != formId ==> r[k] == responses[k]
  {
    var inner := if formId in responses then responses[formId] else map[];
    responses[formId := inner[fieldId := value]]
  }

  /** After an update the answer at that key is missing exactly when the new value is empty;
      every other answer reads as before. */
  lemma SetResponseAnswers(responses: Responses, formId: string, fieldId: string, value: string, a: string, b: string)
    ensures var r := SetResponse(responses, formId, fieldId, value);
      Unanswered(r, a, b) <==> (if a == formId && b == fieldId then value == "" else Unanswered(responses, a, b))
  {
  }

  /** Two answer maps that agree on every field of every required form leave the same fields missing. */
  lemma MissingAnswersAgree(forms: seq<FormDef>, r1: Responses, r2: Responses)
    requires forall form, field | form in forms && field in form.fields && form.form_required ::
      Unanswered(r1, form.id, field.id) == Unanswered(r2, form.id, field.id)
    ensures MissingAnswers(forms, r1) == MissingAnswers(forms, r2)
  {
    var m1 := MissingAnswers(forms, r1);
    var m2 := MissingAnswers(forms, r2);
    forall k | k in m1 ensures k in m2 {
      var form, field :| form in forms && field in form.fields && form.form_required
        && field.required && Unanswered(r1, form.id, field.id) && k == FieldKey(form.id, field.id);
    }
    forall k | k in m2 ensures k in m1 {
      var form, field :| form in forms && field in form.fields && form.form_required
        && field.required && Unanswered(r2, form.id, field.id) && k == FieldKey(form.id, field.id);
    }
  }

  /** Answers given to forms that are not `form_required` never affect validation. */
  lemma OptionalFormsNotChecked(f: PanelForm, types: seq<AT.AppointmentType>, forms: seq<FormDef>,
                                formId: string, fieldId: string, value: string)
    requires forall form :: form in forms && form.id == formId ==> !form.form_required
    ensures Validate(f.(formResponses := SetResponse(f.formResponses, formId, fieldId, value)), types, forms)
         == Validate(f, types, forms)
  {
    var g := f.(formResponses := SetResponse(f.formResponses, formId, fieldId, value));
    forall form, field | form in forms && field in form.fields && form.form_required
      ensures Unanswered(g.formResponses, form.id, field.id) == Unanswered(f.formResponses, form.id, field.id)
    {
      SetResponseAnswers(f.formResponses, formId, fieldId, value, form.id, field.id);
    }
    MissingAnswersAgree(forms, g.formResponses, f.formResponses);
    assert BasicErrors(g) == BasicErrors(f);
  }

  /** `parseInt(value) || 1` for the worker-count input: NaN and 0 become 1, anything else is kept. */
  function ParseWorkerCount(parsed: Option<int>): (n: int)
    ensures n != 0
    ensures parsed.Some? && parsed.value != 0 ==> n == parsed.value
    ensures parsed.None? || parsed.value == 0 ==> n == 1
  {
    match parsed
    case None => 1
    case Some(v) => if v == 0 then 1 else v
  }

  /** A negative number typed in survives parsing, so the "at least 1 worker" check can still fire. */
  lemma NegativeWorkerCountRejected(f: PanelForm, types: seq<AT.AppointmentType>, forms: seq<FormDef>, v: int)
    requires v < 0
    ensures WorkerCountKey in Validate(f.(workerCount := ParseWorkerCount(Some(v))), types, forms)
  {
  }

  // ---- the emitted appointment ------------------------------------------------

  datatype AppointmentStatus = Draft | Scheduled

  /** The object handed to `onAppointmentCreated` (its `Date.now()` id and timestamp aside). */
  datatype NewAppointment = NewAppointment(
    title: string,
    date: int,
    time: string,
    duration: int,
    calendarId: string,
    customerName: string,
    customerInfo: CustomerInfo,
    appointmentTypeId: string,
    workerCount: int,
    assignmentType: AT.AssignmentType,
    formResponses: Responses,
    status: AppointmentStatus)

  /** `find(...)?.name || 'Appointment'`. */
  function TypeLabel(t: Option<AT.AppointmentType>): string {
    if t.Some? && t.value.name != "" then t.value.name else "Appointment"
  }

  /** `find(...)?.base_duration || 60`. */
  function DurationOf(t: Option<AT.AppointmentType>): (d: int)
    ensures d != 0
    ensures t.Some? && t.value.base_duration != 0 ==> d == t.value.base_duration
    ensures t.None? || t.value.base_duration == 0 ==> d == 60
  {
    if t.Some? && t.value.base_duration != 0 then t.value.base_duration else 60
  }

  /**
   * `handleSaveDraft` (`Draft`) and `handleSave` (`Scheduled`): nothing unless `validateForm`
   * passes; otherwise the appointment object. `today` is the fallback for a null date.
   */
  function Save(status: AppointmentStatus, f: PanelForm, types: seq<AT.AppointmentType>, forms: seq<FormDef>, today: int)
    : (r: Option<NewAppointment>)
    ensures r.Some? <==> IsValid(f, types, forms)
    ensures r.Some? ==>
      var a := r.value;
      && a.status == status
      && a.workerCount == f.workerCount >= 1
      && a.calendarId == f.calendarId != ""
      && a.appointmentTypeId == f.appointmentTypeId != ""
      && a.customerInfo == f.customerInfo
      && a.formResponses == f.formResponses
      && a.time == f.scheduledTime
      && a.date == (if f.scheduledDate.Some? then f.scheduledDate.value else today)
      && a.duration == DurationOf(FindType(types, f.appointmentTypeId))
      && a.assignmentType == f.assignmentType
      && a.customerName == f.customerInfo.firstName + " " + f.customerInfo.lastName
      && a.title == a.customerName + " - " + TypeLabel(FindType(types, f.appointmentTypeId))
                    + (if status == Draft then " (Draft)" else "")
  {
    ValidIff(f, types, forms);
    if !IsValid(f, types, forms) then None
    else
      var t := FindType(types, f.appointmentTypeId);
      var who := f.customerInfo.firstName + " " + f.customerInfo.lastName;
      var title := who + " - " + TypeLabel(t) + (if status == Draft then " (Draft)" else "");
      Some(NewAppointment(title, f.scheduledDate.GetOr(today), f.scheduledTime, DurationOf(t),
                          f.calendarId, who, f.customerInfo, f.appointmentTypeId, f.workerCount,
                          f.assignmentType, f.formResponses, status))
  }

  /** Draft and save build the same appointment apart from status and the title's " (Draft)". */
  lemma DraftDiffersOnlyInStatusAndTitle(f: PanelForm, types: seq<AT.AppointmentType>, forms: seq<FormDef>, today: int)
    requires IsValid(f, types, forms)
    ensures var d := Save(Draft, f, types, forms, today).value;
      var s := Save(Scheduled, f, types, forms, today).value;
      d.(status := Scheduled, title := s.title) == s && d.title == s.title + " (Draft)"
  {
  }

  // ---- the customer look-up ---------------------------------------------------

  /** Case-insensitive match of the typed first name against either name. */
  predicate MatchesQuery(c: Customer, query: string): (b: bool)
    ensures b <==> ((exists i :: OccursAt(Lower(c.first_name), Lower(query), i))
                    || (exists i :: OccursAt(Lower(c.last_name), Lower(query), i)))
  {
    Contains(Lower(c.first_name), Lower(query)) || Contains(Lower(c.last_name), Lower(query))
  }

  /** `filteredCustomers`: the customers whose first or last name contains the typed first name. */
  function FilteredCustomers(customers: seq<Customer>, query: string): (r: seq<Customer>)
    ensures forall c :: c in r <==> c in customers && MatchesQuery(c, query)
    ensures Lists.IsSubsequence(r, customers)
  {
    Lists.Filter(customers, c => MatchesQuery(c, query))
  }

  /** With nothing typed yet, every customer matches. */
  lemma EmptyQueryMatchesAll(customers: seq<Customer>)
    ensures FilteredCustomers(customers, "") == customers
  {
    forall c | c in customers ensures MatchesQuery(c, "") {
      assert IsPrefix(Lower(""), Lower(c.first_name));
    }
  }
}
