/**
 * The appointment-type catalog of the org-admin "Appointment Types" page: the create and
 * edit modals' form state, their validator, the calendar/form assignment checkboxes, and
 * the page's create, edit-merge and active-flag updates of the catalog list.
 * Prices are integer cents.
 */
module AppointmentTypes {
  import opened Options
  import opened Text
  import Lists

  datatype AssignmentType = SelfAssign | AutoAssign | ManualAssign

  datatype AppointmentType = AppointmentType(
    id: string,
    name: string,
    description: string,
    base_duration: int,
    minimum_price: int,
    base_price: int,
    assignment_type: AssignmentType,
    is_active: bool,
    created_at: string,
    assigned_calendars: seq<string>,
    assigned_forms: seq<string>)

  /** The modal's `formData`: everything an admin can type or tick. */
  datatype TypeForm = TypeForm(
    name: string,
    description: string,
    base_duration: int,
    minimum_price: int,
    base_price: int,
    assignment_type: AssignmentType,
    assigned_calendars: seq<string>,
    assigned_forms: seq<string>)

  /** The keys of the modal's `errors` record. */
  datatype TypeField = Name | BaseDuration | MinimumPrice | BasePrice

  const NameRequired := "Name is required"
  const DurationNotPositive := "Duration must be greater than 0"
  const MinimumNegative := "Minimum price cannot be negative"
  const BaseNegative := "Base price cannot be negative"
  const BaseBelowMinimum := "Base price must be greater than or equal to minimum price"

  /** The rules the catalog promises of every appointment type it accepts. */
  predicate RulesHold(name: string, duration: int, minimum: int, base: int) {
    !IsBlank(name) && duration > 0 && minimum >= 0 && base >= 0 && base >= minimum
  }

  /**
   * `validateForm` (identical in the create and the edit modal): the record holds a key
   * for each rule that fails, with that rule's message.
   */
  function ValidationErrors(f: TypeForm): (errs: map<TypeField, string>)
    ensures Name in errs <==> IsBlank(f.name)
    ensures BaseDuration in errs <==> f.base_duration <= 0
    ensures MinimumPrice in errs <==> f.minimum_price < 0
    ensures BasePrice in errs <==> f.base_price < 0 || f.base_price < f.minimum_price
    ensures BasePrice in errs ==>
      errs[BasePrice] == (if f.base_price < f.minimum_price then BaseBelowMinimum else BaseNegative)
  {
    map k | k in {Name, BaseDuration, MinimumPrice, BasePrice} && RuleFails(f, k) :: Message(f, k)
  }

  /** Whether the check `validateForm` runs for key `k` fails. */
  predicate RuleFails(f: TypeForm, k: TypeField) {
    match k
    case Name => NameBlank(f.name)
    case BaseDuration => f.base_duration <= 0
    case MinimumPrice => f.minimum_price < 0
    case BasePrice => f.base_price < 0 || f.base_price < f.minimum_price
  }

  /**
   * The message left under key `k`. The two base-price checks write the same key in
   * source order, so the "below minimum" message overwrites the "negative" one.
   */
  function Message(f: TypeForm, k: TypeField): string {
    match k
    case Name => NameRequired
    case BaseDuration => DurationNotPositive
    case MinimumPrice => MinimumNegative
    case BasePrice => if f.base_price < f.minimum_price then BaseBelowMinimum else BaseNegative
  }

  /** `!name.trim()`. */
  function NameBlank(name: string): (b: bool)
    ensures b <==> IsBlank(name)
  {
    TrimEmptyIffBlank(name);
    Trim(name) == ""
  }

  /** `Object.keys(newErrors).length === 0`. */
  predicate IsValid(f: TypeForm) {
    |ValidationErrors(f)| == 0
  }

  /** The form is accepted exactly when every catalog rule holds. */
  lemma ValidIffRules(f: TypeForm)
    ensures IsValid(f) <==> RulesHold(f.name, f.base_duration, f.minimum_price, f.base_price)
  {
    var errs := ValidationErrors(f);
    if !RulesHold(f.name, f.base_duration, f.minimum_price, f.base_price) {
      assert exists k :: k in errs;
    }
  }

  /** Equal prices pass: the price rule is `base >= minimum`, not `>`. */
  lemma EqualPricesAccepted(f: TypeForm)
    requires !IsBlank(f.name) && f.base_duration > 0 && f.minimum_price >= 0
    requires f.base_price == f.minimum_price
    ensures IsValid(f)
  {
    ValidIffRules(f);
  }

  /**
   * The "cannot be negative" base-price message survives only when the base price is not
   * below the minimum; then the minimum is negative too, so that error is reported as well.
   */
  lemma NegativeBaseMessageImpliesNegativeMinimum(f: TypeForm)
    requires BasePrice in ValidationErrors(f) && ValidationErrors(f)[BasePrice] == BaseNegative
    ensures MinimumPrice in ValidationErrors(f)
  {
  }

  // ---- the modals' form state -------------------------------------------------

  /** One user action in a modal. Numbers are `parseInt`/`parseFloat` results (`None` = NaN). */
  datatype FormAction =
    | SetName(name: string)
    | SetDescription(description: string)
    | SetDuration(duration: Option<int>)
    | SetMinimumPrice(minimum: Option<int>)
    | SetBasePrice(base: Option<int>)
    | SetAssignment(assignment: AssignmentType)
    | ToggleCalendar(calendarId: string)
    | ToggleForm(formId: string)

  /** The state after an action, and whether the action's handler threw. */
  datatype Step = Step(form: TypeForm, threw: bool)

  /** `handleInputChange` for the typed fields; number inputs use `parse(value) || 0`. */
  function ApplyInput(f: TypeForm, a: FormAction): (r: TypeForm)
    requires !a.ToggleCalendar? && !a.ToggleForm?
    ensures r.assigned_calendars == f.assigned_calendars && r.assigned_forms == f.assigned_forms
  {
    match a
    case SetName(n) => f.(name := n)
    case SetDescription(d) => f.(description := d)
    case SetDuration(v) => f.(base_duration := v.GetOr(0))
    case SetMinimumPrice(v) => f.(minimum_price := v.GetOr(0))
    case SetBasePrice(v) => f.(base_price := v.GetOr(0))
    case SetAssignment(t) => f.(assignment_type := t)
  }

  /** The edit modal: both checkbox lists toggle. */
  function EditModalStep(f: TypeForm, a: FormAction): (r: Step)
    ensures !r.threw
    ensures a.ToggleCalendar? ==> r.form == f.(assigned_calendars := Lists.Toggle(f.assigned_calendars, a.calendarId))
    ensures a.ToggleForm? ==> r.form == f.(assigned_forms := Lists.Toggle(f.assigned_forms, a.formId))
  {
    match a
    case ToggleCalendar(c) => Step(f.(assigned_calendars := Lists.Toggle(f.assigned_calendars, c)), false)
    case ToggleForm(id) => Step(f.(assigned_forms := Lists.Toggle(f.assigned_forms, id)), false)
    case _ => Step(ApplyInput(f, a), false)
  }

  /**
   * The create modal: its form checkboxes call `toggleForm`, which only the edit modal
   * defines, so ticking one throws a ReferenceError and the state stays as it was.
   */
  function CreateModalStep(f: TypeForm, a: FormAction): (r: Step)
    ensures r.threw <==> a.ToggleForm?
    ensures r.form.assigned_forms == f.assigned_forms
    ensures a.ToggleCalendar? ==> r.form == f.(assigned_calendars := Lists.Toggle(f.assigned_calendars, a.calendarId))
  {
    match a
    case ToggleCalendar(c) => Step(f.(assigned_calendars := Lists.Toggle(f.assigned_calendars, c)), false)
    case ToggleForm(_) => Step(f, true)
    case _ => Step(ApplyInput(f, a), false)
  }

  /** The create modal's initial `formData`. */
  const InitialCreateForm := TypeForm("", "", 60, 0, 0, ManualAssign, [], [])

  /** The create modal's state after a series of actions. */
  function RunCreateModal(f: TypeForm, actions: seq<FormAction>): TypeForm
    decreases |actions|
  {
    if |actions| == 0 then f else RunCreateModal(CreateModalStep(f, actions[0]).form, actions[1..])
  }

  /** Whatever an admin does in the create modal, no form ends up assigned. */
  lemma {:induction false} CreateModalNeverAssignsForms(f: TypeForm, actions: seq<FormAction>)
    decreases |actions|
    ensures RunCreateModal(f, actions).assigned_forms == f.assigned_forms
  {
    if |actions| > 0 {
      CreateModalNeverAssignsForms(CreateModalStep(f, actions[0]).form, actions[1..]);
    }
  }

  /** Hence every type created through the create modal starts with an empty form list. */
  lemma CreatedFormsAlwaysEmpty(actions: seq<FormAction>)
    ensures RunCreateModal(InitialCreateForm, actions).assigned_forms == []
  {
    CreateModalNeverAssignsForms(InitialCreateForm, actions);
  }

  /** The create modal as evidently meant: its form checkboxes toggle like the edit modal's. */
  function RunFixedCreateModal(f: TypeForm, actions: seq<FormAction>): TypeForm
    decreases |actions|
  {
    if |actions| == 0 then f else RunFixedCreateModal(EditModalStep(f, actions[0]).form, actions[1..])
  }

  /** Ticking one form: the written modal keeps the list empty, the fixed one assigns the form. */
  lemma TickingAFormInCreateModal(id: string)
    ensures RunCreateModal(InitialCreateForm, [ToggleForm(id)]).assigned_forms == []
    ensures RunFixedCreateModal(InitialCreateForm, [ToggleForm(id)]).assigned_forms == [id]
  {
    var one: seq<FormAction> := [ToggleForm(id)];
    assert one[1..] == [];
  }

  /** Without form ticks the fixed modal behaves exactly as the written one. */
  lemma {:induction false} FixedCreateModalAgrees(f: TypeForm, actions: seq<FormAction>)
    requires forall i :: 0 <= i < |actions| ==> !actions[i].ToggleForm?
    ensures RunFixedCreateModal(f, actions) == RunCreateModal(f, actions)
    decreases |actions|
  {
    if |actions| > 0 {
      FixedCreateModalAgrees(EditModalStep(f, actions[0]).form, actions[1..]);
    }
  }

  /** With the fix, the form list after any run is the original toggled by each ticked id in turn. */
  lemma {:induction false} FixedCreateModalTogglesForms(f: TypeForm, actions: seq<FormAction>, id: string)
    requires forall i :: 0 <= i < |actions| ==> (actions[i].ToggleForm? ==> actions[i].formId == id)
    ensures (id in RunFixedCreateModal(f, actions).assigned_forms) <==>
      (if OddTicks(actions) then id !in f.assigned_forms else id in f.assigned_forms)
    decreases |actions|
  {
    if |actions| > 0 {
      var g := EditModalStep(f, actions[0]).form;
      FixedCreateModalTogglesForms(g, actions[1..], id);
      assert OddTicks(actions) == (actions[0].ToggleForm? != OddTicks(actions[1..]));
      if actions[0].ToggleForm? {
        assert id in g.assigned_forms <==> id !in f.assigned_forms;
      } else {
        assert g.assigned_forms == f.assigned_forms;
      }
    }
  }

  /** Whether a run holds an odd number of form ticks. */
  predicate OddTicks(actions: seq<FormAction>)
    decreases |actions|
  {
    |actions| > 0 && (actions[0].ToggleForm? != OddTicks(actions[1..]))
  }

  /** The edit modal's initial `formData`, copied from the type being edited. */
  function EditFormOf(t: AppointmentType): TypeForm {
    TypeForm(t.name, t.description, t.base_duration, t.minimum_price, t.base_price,
             t.assignment_type, t.assigned_calendars, t.assigned_forms)
  }

  // ---- the catalog list -------------------------------------------------------

  /** A catalog entry that satisfies the validator's rules. */
  predicate WellFormed(t: AppointmentType) {
    RulesHold(t.name, t.base_duration, t.minimum_price, t.base_price)
  }

  /**
   * `handleCreateAppointmentType`, reached only through a passing `validateForm`: appends
   * one new active type built from the form. `newId` and `now` stand for `Date.now()`.
   */
  function CreateType(types: seq<AppointmentType>, f: TypeForm, newId: string, now: string): (r: seq<AppointmentType>)
    ensures IsValid(f) ==> |r| == |types| + 1 && r[..|types|] == types
    ensures IsValid(f) ==>
      var t := r[|types|];
      t.id == newId && t.is_active && t.created_at == now && EditFormOf(t) == f && WellFormed(t)
    ensures !IsValid(f) ==> r == types
  {
    ValidIffRules(f);
    if IsValid(f) then
      types + [AppointmentType(newId, f.name, f.description, f.base_duration, f.minimum_price,
                               f.base_price, f.assignment_type, true, now,
                               f.assigned_calendars, f.assigned_forms)]
    else types
  }

  /** `{ ...apt, ...formData }`: the form overrides its eight fields, the rest is kept. */
  function Merge(t: AppointmentType, f: TypeForm): (r: AppointmentType)
    ensures r.id == t.id && r.is_active == t.is_active && r.created_at == t.created_at
    ensures EditFormOf(r) == f
  {
    t.(name := f.name, description := f.description, base_duration := f.base_duration,
       minimum_price := f.minimum_price, base_price := f.base_price,
       assignment_type := f.assignment_type, assigned_calendars := f.assigned_calendars,
       assigned_forms := f.assigned_forms)
  }

  /** Saving the edit modal without touching anything gives the type back unchanged. */
  lemma EditWithoutChangesIsIdentity(t: AppointmentType)
    ensures Merge(t, EditFormOf(t)) == t
  {
  }

  /** The page state the edit flow touches. */
  datatype CatalogPage = CatalogPage(
    types: seq<AppointmentType>,
    selected: Option<AppointmentType>,
    showEdit: bool)

  /**
   * The edit modal's submit: an invalid form changes nothing (the modal stays open).
   * A valid one reaches `handleEditAppointmentType`, which merges the form into every
   * entry carrying the selected type's id when a type is selected, and in any case closes
   * the modal and clears the selection.
   */
  function EditType(p: CatalogPage, f: TypeForm): (r: CatalogPage)
    ensures !IsValid(f) ==> r == p
    ensures IsValid(f) ==> r.selected == None && !r.showEdit && |r.types| == |p.types|
    ensures IsValid(f) && p.selected.None? ==> r.types == p.types
    ensures IsValid(f) && p.selected.Some? ==>
      forall i :: 0 <= i < |p.types| ==>
        r.types[i] == (if p.types[i].id == p.selected.value.id then Merge(p.types[i], f) else p.types[i])
  {
    if !IsValid(f) then p
    else
      var types :=
        if p.selected.Some? then
          seq(|p.types|, i requires 0 <= i < |p.types| =>
            if p.types[i].id == p.selected.value.id then Merge(p.types[i], f) else p.types[i])
        else p.types;
      CatalogPage(types, None, false)
  }

  /** `handleToggleAppointmentTypeStatus`: flip `is_active` of the entries with this id, nothing else. */
  function ToggleTypeStatus(types: seq<AppointmentType>, id: string): (r: seq<AppointmentType>)
    ensures |r| == |types|
    ensures forall i :: 0 <= i < |types| ==>
      r[i].(is_active := types[i].is_active) == types[i]
      && (r[i].is_active <==> (if types[i].id == id then !types[i].is_active else types[i].is_active))
  {
    seq(|types|, i requires 0 <= i < |types| =>
      if types[i].id == id then types[i].(is_active := !types[i].is_active) else types[i])
  }

  /** Flipping the same type twice restores the catalog. */
  lemma ToggleTypeStatusTwice(types: seq<AppointmentType>, id: string)
    ensures ToggleTypeStatus(ToggleTypeStatus(types, id), id) == types
  {
  }

  lemma CreateKeepsWellFormed(types: seq<AppointmentType>, f: TypeForm, newId: string, now: string)
    requires forall t :: t in types ==> WellFormed(t)
    ensures forall t :: t in CreateType(types, f, newId, now) ==> WellFormed(t)
  {
    var c := CreateType(types, f, newId, now);
    if IsValid(f) {
      assert c == types + [c[|types|]];
      assert WellFormed(c[|types|]);
    }
  }

  lemma EditKeepsWellFormed(p: CatalogPage, f: TypeForm)
    requires forall t :: t in p.types ==> WellFormed(t)
    ensures forall t :: t in EditType(p, f).types ==> WellFormed(t)
  {
    ValidIffRules(f);
    var e := EditType(p, f).types;
    forall t | t in e ensures WellFormed(t) {
      var i :| 0 <= i < |e| && e[i] == t;
      assert p.types[i] in p.types;
    }
  }

  lemma ToggleKeepsWellFormed(types: seq<AppointmentType>, id: string)
    requires forall t :: t in types ==> WellFormed(t)
    ensures forall t :: t in ToggleTypeStatus(types, id) ==> WellFormed(t)
  {
    var g := ToggleTypeStatus(types, id);
    forall t | t in g ensures WellFormed(t) {
      var i :| 0 <= i < |g| && g[i] == t;
      assert types[i] in types;
    }
  }

  /** Create, edit and status toggles all keep a well-formed catalog well-formed. */
  lemma CatalogStaysWellFormed(p: CatalogPage, f: TypeForm, newId: string, now: string, id: string)
    requires forall t :: t in p.types ==> WellFormed(t)
    ensures forall t :: t in CreateType(p.types, f, newId, now) ==> WellFormed(t)
    ensures forall t :: t in EditType(p, f).types ==> WellFormed(t)
    ensures forall t :: t in ToggleTypeStatus(p.types, id) ==> WellFormed(t)
  {
    CreateKeepsWellFormed(p.types, f, newId, now);
    EditKeepsWellFormed(p, f);
    ToggleKeepsWellFormed(p.types, id);
  }

}
