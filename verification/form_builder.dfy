/**
 * The org-admin form builder: the create/edit modal's name check, its field list
 * (append, update, remove, reorder), the per-field option editor, the appointment-type
 * checkboxes, and the page's active-flag toggle.
 */
module FormBuilder {
  import opened Options
  import opened Text
  import Lists

  datatype FieldType = Textbox | Dropdown | Checkbox | CheckboxList | YesNo | FileUpload | Address

  datatype FormField = FormField(
    id: string,
    form_id: string,
    field_type: FieldType,
    fieldLabel: string,
    required: bool,
    options: Option<seq<string>>,
    order_index: int)

  datatype Form = Form(
    id: string,
    name: string,
    description: string,
    is_active: bool,
    internal_use_only: bool,
    form_required: bool,
    created_at: string,
    assigned_appointment_types: seq<string>)

  /** The modal's `formData`. */
  datatype FormDraft = FormDraft(
    name: string,
    description: string,
    internal_use_only: bool,
    form_required: bool,
    assigned_appointment_types: seq<string>)

  // ---- validation -------------------------------------------------------------

  /** `validateForm` (the same in both modals): the only rule is a non-blank name. */
  function NameError(d: FormDraft): (err: Option<string>)
    ensures err.Some? <==> IsBlank(d.name)
  {
    TrimEmptyIffBlank(d.name);
    if Trim(d.name) == "" then Some("Form name is required") else None
  }

  /** `toggleAppointmentType`: the appointment-type checkbox list, nothing else. */
  function ToggleAppointmentType(d: FormDraft, typeId: string): (r: FormDraft)
    ensures r.(assigned_appointment_types := d.assigned_appointment_types) == d
    ensures typeId in r.assigned_appointment_types <==> typeId !in d.assigned_appointment_types
    ensures forall t :: t != typeId ==> (t in r.assigned_appointment_types <==> t in d.assigned_appointment_types)
  {
    d.(assigned_appointment_types := Lists.Toggle(d.assigned_appointment_types, typeId))
  }

  /** Ticking a type twice restores which types are assigned. */
  lemma ToggleAppointmentTypeTwice(d: FormDraft, typeId: string)
    ensures var r := ToggleAppointmentType(ToggleAppointmentType(d, typeId), typeId);
      forall t :: t in r.assigned_appointment_types <==> t in d.assigned_appointment_types
  {
  }

  /** `handleToggleFormStatus`: flip `is_active` of the forms with this id, nothing else. */
  function ToggleFormStatus(forms: seq<Form>, id: string): (r: seq<Form>)
    ensures |r| == |forms|
    ensures forall i :: 0 <= i < |forms| ==>
      r[i].(is_active := forms[i].is_active) == forms[i]
      && (r[i].is_active <==> (if forms[i].id == id then !forms[i].is_active else forms[i].is_active))
  {
    seq(|forms|, i requires 0 <= i < |forms| =>
      if forms[i].id == id then forms[i].(is_active := !forms[i].is_active) else forms[i])
  }

  lemma ToggleFormStatusTwice(forms: seq<Form>, id: string)
    ensures ToggleFormStatus(ToggleFormStatus(forms, id), id) == forms
  {
  }

  // ---- the field list ---------------------------------------------------------

  /** Choice fields start with an empty option list; the others have none. */
  predicate HasOptions(t: FieldType) {
    t == Dropdown || t == CheckboxList
  }

  /**
   * `addField(fieldType)`: append a blank, optional field whose `order_index` is the old
   * length. `newId` stands for `Date.now().toString()`; `formId` is '' in the create modal.
   */
  function AddField(fields: seq<FormField>, newId: string, formId: string, t: FieldType): (r: seq<FormField>)
    ensures |r| == |fields| + 1 && r[..|fields|] == fields
    ensures var f := r[|fields|];
      f.id == newId && f.form_id == formId && f.field_type == t && f.fieldLabel == ""
      && !f.required && f.order_index == |fields|
      && (f.options == if HasOptions(t) then Some([]) else None)
  {
    fields + [FormField(newId, formId, t, "", false, if HasOptions(t) then Some([]) else None, |fields|)]
  }

  /** The keys `updateField` may be handed; `None` is a key left out of the patch. */
  datatype FieldPatch = FieldPatch(fieldLabel: Option<string>, required: Option<bool>, options: Option<seq<string>>)

  /** `updateField(fieldId, updates)`: `{ ...field, ...updates }` on the fields with that id only. */
  function UpdateField(fields: seq<FormField>, id: string, patch: FieldPatch): (r: seq<FormField>)
    ensures |r| == |fields|
    ensures forall i :: 0 <= i < |fields| && fields[i].id != id ==> r[i] == fields[i]
    ensures forall i :: 0 <= i < |fields| && fields[i].id == id ==>
      r[i].(fieldLabel := fields[i].fieldLabel, required := fields[i].required, options := fields[i].options) == fields[i]
      && r[i].fieldLabel == patch.fieldLabel.GetOr(fields[i].fieldLabel)
      && r[i].required == patch.required.GetOr(fields[i].required)
      && (patch.options.Some? ==> r[i].options == patch.options)
      && (patch.options.None? ==> r[i].options == fields[i].options)
  {
    seq(|fields|, i requires 0 <= i < |fields| =>
      var f := fields[i];
      if f.id == id then
        f.(fieldLabel := patch.fieldLabel.GetOr(f.fieldLabel),
           required := patch.required.GetOr(f.required),
           options := if patch.options.Some? then patch.options else f.options)
      else f)
  }

  /** `removeField(fieldId)`: drop the fields with that id, keep the others in order. */
  function RemoveField(fields: seq<FormField>, id: string): (r: seq<FormField>)
    ensures forall f :: f in r <==> f in fields && f.id != id
    ensures Lists.IsSubsequence(r, fields)
  {
    Lists.Filter(fields, (f: FormField) => f.id != id)
  }

  /** Removing a field does not renumber the rest, so the next appended field can reuse an
      `order_index`: fields 0, 1, 2, remove the middle one, add one, and two fields claim 2. */
  lemma RemoveThenAddDuplicatesOrderIndex(a: FormField, b: FormField, c: FormField)
    requires a.id == "a" && b.id == "b" && c.id == "c"
    requires a.order_index == 0 && b.order_index == 1 && c.order_index == 2
    ensures var r := AddField(RemoveField([a, b, c], "b"), "d", "", Textbox);
      |r| == 3 && r[1].order_index == 2 && r[2].order_index == 2
  {
    var keep := (f: FormField) => f.id != "b";
    var s := [a, b, c];
    assert s[1..] == [b, c] && s[1..][1..] == [c] && s[1..][1..][1..] == [];
    assert Lists.Filter([c], keep) == [c];
    assert Lists.Filter([b, c], keep) == [c];
    assert Lists.Filter(s, keep) == [a, c];
  }

  /** The field without its position: what a move must preserve. */
  function Erase(f: FormField): FormField { f.(order_index := 0) }

  function EraseAll(s: seq<FormField>): (r: seq<FormField>)
    ensures |r| == |s| && forall i :: 0 <= i < |s| ==> r[i] == Erase(s[i])
  {
    seq(|s|, i requires 0 <= i < |s| => Erase(s[i]))
  }

  /** Every field's `order_index` equals its position. */
  predicate Numbered(s: seq<FormField>) {
    forall i :: 0 <= i < |s| ==> s[i].order_index == i
  }

  /** `splice(from, 1)` then `splice(to, 0, moved)`. */
  function Splice<T>(s: seq<T>, from: nat, to: nat): (r: seq<T>)
    requires from < |s| && to < |s|
    ensures |r| == |s|
  {
    var rest := s[..from] + s[from + 1..];
    rest[..to] + [s[from]] + rest[to..]
  }

  /** Where each position of a move takes its element from. */
  function MovedFrom(from: nat, to: nat, i: nat): nat {
    if i == to then from
    else if from <= to then (if from <= i < to then i + 1 else i)
    else (if to < i <= from then i - 1 else i)
  }

  lemma SpliceIndex<T>(s: seq<T>, from: nat, to: nat)
    requires from < |s| && to < |s|
    ensures forall i :: 0 <= i < |s| ==> MovedFrom(from, to, i) < |s| && Splice(s, from, to)[i] == s[MovedFrom(from, to, i)]
  {
  }

  lemma SplicePermutes<T>(s: seq<T>, from: nat, to: nat)
    requires from < |s| && to < |s|
    ensures multiset(Splice(s, from, to)) == multiset(s)
  {
    var rest := s[..from] + s[from + 1..];
    assert s == s[..from] + [s[from]] + s[from + 1..];
    assert multiset(s) == multiset(s[..from]) + multiset{s[from]} + multiset(s[from + 1..]);
    assert multiset(rest) == multiset(s[..from]) + multiset(s[from + 1..]);
    assert rest == rest[..to] + rest[to..];
    assert multiset(rest) == multiset(rest[..to]) + multiset(rest[to..]);
    assert Splice(s, from, to) == rest[..to] + [s[from]] + rest[to..];
    assert multiset(Splice(s, from, to)) == multiset(rest[..to]) + multiset{s[from]} + multiset(rest[to..]);
    assert multiset(Splice(s, from, to)) == multiset(rest) + multiset{s[from]};
    assert multiset(s) == multiset(rest) + multiset{s[from]};
  }

  lemma EraseSplice(s: seq<FormField>, from: nat, to: nat)
    requires from < |s| && to < |s|
    ensures EraseAll(Splice(s, from, to)) == Splice(EraseAll(s), from, to)
  {
    SpliceIndex(s, from, to);
    SpliceIndex(EraseAll(s), from, to);
  }

  /** `newFields.map((field, index) => ({ ...field, order_index: index }))`. */
  function Renumber(s: seq<FormField>): (r: seq<FormField>)
    ensures |r| == |s| && Numbered(r) && EraseAll(r) == EraseAll(s)
  {
    seq(|s|, i requires 0 <= i < |s| => s[i].(order_index := i))
  }

  /**
   * `moveField(fromIndex, toIndex)`: take the field out, insert it at `toIndex`, and
   * renumber every `order_index` to its new position.
   */
  function MoveField(fields: seq<FormField>, from: nat, to: nat): (r: seq<FormField>)
    requires from < |fields| && to < |fields|
    ensures |r| == |fields| && Numbered(r)
    ensures r[to] == fields[from].(order_index := to)
    ensures forall i :: 0 <= i < |fields| ==> Erase(r[i]) == Erase(fields[MovedFrom(from, to, i)])
    ensures multiset(EraseAll(r)) == multiset(EraseAll(fields))
  {
    var r := Renumber(Splice(fields, from, to));
    SpliceIndex(fields, from, to);
    EraseSplice(fields, from, to);
    SplicePermutes(EraseAll(fields), from, to);
    r
  }

  /** The others keep their relative order around the moved field. */
  lemma MoveFieldKeepsOthersInOrder(fields: seq<FormField>, from: nat, to: nat)
    requires from < |fields| && to < |fields|
    ensures var r := MoveField(fields, from, to);
      EraseAll(r[..to] + r[to + 1..]) == EraseAll(fields[..from] + fields[from + 1..])
  {
    var r := MoveField(fields, from, to);
    var a := EraseAll(r[..to] + r[to + 1..]);
    var b := EraseAll(fields[..from] + fields[from + 1..]);
    assert |a| == |b|;
    forall i | 0 <= i < |a| ensures a[i] == b[i] {
      if i < to {
        assert a[i] == Erase(r[i]);
      } else {
        assert a[i] == Erase(r[i + 1]);
      }
    }
  }

  /** The "up" arrow of row `index`: only issued when there is a row above. */
  function MoveUp(fields: seq<FormField>, index: nat): (r: seq<FormField>)
    requires index < |fields|
    ensures index == 0 ==> r == fields
    ensures index > 0 ==> Numbered(r) && |r| == |fields|
    ensures index > 0 ==> Erase(r[index - 1]) == Erase(fields[index]) && Erase(r[index]) == Erase(fields[index - 1])
    ensures index > 0 ==> forall i :: 0 <= i < |fields| && i != index - 1 && i != index ==> Erase(r[i]) == Erase(fields[i])
  {
    if index > 0 then MoveField(fields, index, index - 1) else fields
  }

  /** The "down" arrow of row `index`: only issued when there is a row below. */
  function MoveDown(fields: seq<FormField>, index: nat): (r: seq<FormField>)
    requires index < |fields|
    ensures index == |fields| - 1 ==> r == fields
    ensures index < |fields| - 1 ==> Numbered(r) && |r| == |fields|
    ensures index < |fields| - 1 ==> Erase(r[index + 1]) == Erase(fields[index]) && Erase(r[index]) == Erase(fields[index + 1])
    ensures index < |fields| - 1 ==> forall i :: 0 <= i < |fields| && i != index + 1 && i != index ==> Erase(r[i]) == Erase(fields[i])
  {
    if index < |fields| - 1 then MoveField(fields, index, index + 1) else fields
  }

  /** Up then down undoes the move; on a numbered list it is the identity. */
  lemma MoveUpThenDown(fields: seq<FormField>, index: nat)
    requires 0 < index < |fields| && Numbered(fields)
    ensures MoveDown(MoveUp(fields, index), index - 1) == fields
  {
    var m := MoveUp(fields, index);
    var r := MoveDown(m, index - 1);
    forall i | 0 <= i < |fields| ensures r[i] == fields[i] {
      if i == index - 1 {
        assert Erase(r[i]) == Erase(m[index]) == Erase(fields[i]);
      } else if i == index {
        assert Erase(r[i]) == Erase(m[index - 1]) == Erase(fields[i]);
      } else {
        assert Erase(r[i]) == Erase(m[i]) == Erase(fields[i]);
      }
      SameErasureSamePosition(r[i], fields[i]);
    }
  }

  /** Two fields that agree apart from `order_index` and agree on that too are the same field. */
  lemma SameErasureSamePosition(a: FormField, b: FormField)
    requires Erase(a) == Erase(b) && a.order_index == b.order_index
    ensures a == b
  {
  }

  // ---- the option editor ------------------------------------------------------

  /** `FieldConfiguration`'s state: the edited label, flag and options, and the new-option box. */
  datatype FieldConfig = FieldConfig(fieldLabel: string, required: bool, options: seq<string>, newOption: string)

  /** The editor opens on the field's values; a field without options gets `[]`. */
  function OpenConfig(f: FormField): (c: FieldConfig)
    ensures c.fieldLabel == f.fieldLabel && c.required == f.required && c.newOption == ""
    ensures f.options.Some? ==> c.options == f.options.value
    ensures f.options.None? ==> c.options == []
  {
    FieldConfig(f.fieldLabel, f.required, f.options.GetOr([]), "")
  }

  /** `addOption`: append the trimmed text and clear the box, but only if it is not blank. */
  function AddOption(c: FieldConfig): (r: FieldConfig)
    ensures IsBlank(c.newOption) ==> r == c
    ensures !IsBlank(c.newOption) ==>
      r == c.(options := c.options + [Trim(c.newOption)], newOption := "")
      && Trim(c.newOption) != ""
      && !IsJsSpace(Trim(c.newOption)[0]) && !IsJsSpace(Trim(c.newOption)[|Trim(c.newOption)| - 1])
  {
    TrimEmptyIffBlank(c.newOption);
    if Trim(c.newOption) != "" then c.(options := c.options + [Trim(c.newOption)], newOption := "") else c
  }

  /** `options.filter((_, i) => i !== index)`, walking the list with its running index. */
  function DropIndex(s: seq<string>, index: int, offset: int): (r: seq<string>)
    ensures 0 <= index - offset < |s| ==> r == s[..index - offset] + s[index - offset + 1..]
    ensures !(0 <= index - offset < |s|) ==> r == s
  {
    if |s| == 0 then []
    else
      var rest := DropIndex(s[1..], index, offset + 1);
      if offset != index then [s[0]] + rest else rest
  }

  /** `removeOption(index)`: exactly option `index` goes; an index outside the list changes nothing. */
  function RemoveOption(c: FieldConfig, index: int): (r: FieldConfig)
    ensures r.(options := c.options) == c
    ensures 0 <= index < |c.options| ==> r.options == c.options[..index] + c.options[index + 1..]
    ensures !(0 <= index < |c.options|) ==> r.options == c.options
  {
    c.(options := DropIndex(c.options, index, 0))
  }

  /** `handleSave`: label, flag and options are all sent, so options always become a list. */
  function ConfigPatch(c: FieldConfig): (p: FieldPatch)
    ensures p.fieldLabel == Some(c.fieldLabel) && p.required == Some(c.required) && p.options == Some(c.options)
  {
    FieldPatch(Some(c.fieldLabel), Some(c.required), Some(c.options))
  }

  /** Saving the editor unchanged on a field without options gives it an empty option list. */
  lemma SavingConfigAddsEmptyOptions(fields: seq<FormField>, i: nat)
    requires i < |fields| && fields[i].options.None?
    requires forall j :: 0 <= j < |fields| && j != i ==> fields[j].id != fields[i].id
    ensures var r := UpdateField(fields, fields[i].id, ConfigPatch(OpenConfig(fields[i])));
      r[i] == fields[i].(options := Some([]))
  {
  }

  // ---- the modals and the page ------------------------------------------------

  /** The create modal opens blank, so it cannot be submitted before a name is typed. */
  function NewDraft(): (d: FormDraft)
    ensures d.assigned_appointment_types == [] && !d.internal_use_only && !d.form_required
    ensures NameError(d).Some? && forall fs :: Submit(d, fs).None?
  {
    FormDraft("", "", false, false, [])
  }

  /** The edit modal opens on the form's own values. */
  function DraftOf(f: Form): FormDraft {
    FormDraft(f.name, f.description, f.internal_use_only, f.form_required, f.assigned_appointment_types)
  }

  /** `handleSubmit`: hand the draft and its fields to the page only when the name is set. */
  function Submit(d: FormDraft, fields: seq<FormField>): (r: Option<(FormDraft, seq<FormField>)>)
    ensures r.Some? <==> !IsBlank(d.name)
    ensures r.Some? ==> r.value == (d, fields)
  {
    if NameError(d).None? then Some((d, fields)) else None
  }

  /** `handleCreateForm`: append an active form built from the draft. */
  function CreateForm(forms: seq<Form>, d: FormDraft, newId: string, now: string): (r: seq<Form>)
    ensures |r| == |forms| + 1 && r[..|forms|] == forms
    ensures var f := r[|forms|];
      f.id == newId && f.is_active && f.created_at == now && DraftOf(f) == d
  {
    forms + [Form(newId, d.name, d.description, true, d.internal_use_only, d.form_required, now, d.assigned_appointment_types)]
  }

  /** `{ ...form, ...formData }`: the draft's keys replace the form's, the rest stays. */
  function MergeDraft(f: Form, d: FormDraft): (r: Form)
    ensures DraftOf(r) == d && r.id == f.id && r.is_active == f.is_active && r.created_at == f.created_at
  {
    f.(name := d.name, description := d.description, internal_use_only := d.internal_use_only,
       form_required := d.form_required, assigned_appointment_types := d.assigned_appointment_types)
  }

  /** `handleEditForm`: merge into the forms with the selected id; with no selection, nothing. */
  function EditForm(forms: seq<Form>, selected: Option<string>, d: FormDraft): (r: seq<Form>)
    ensures selected.None? ==> r == forms
    ensures |r| == |forms|
    ensures selected.Some? ==> forall i :: 0 <= i < |forms| ==>
      r[i] == if forms[i].id == selected.value then MergeDraft(forms[i], d) else forms[i]
  {
    if selected.None? then
      forms
    else
      seq(|forms|, i requires 0 <= i < |forms| =>
        if forms[i].id == selected.value then MergeDraft(forms[i], d) else forms[i])
  }

  /** Saving the edit modal untouched leaves the list as it was. */
  lemma EditUnchangedIsIdentity(forms: seq<Form>, i: nat)
    requires i < |forms|
    requires forall j :: 0 <= j < |forms| && forms[j].id == forms[i].id ==> forms[j] == forms[i]
    ensures EditForm(forms, Some(forms[i].id), DraftOf(forms[i])) == forms
  {
    var r := EditForm(forms, Some(forms[i].id), DraftOf(forms[i]));
    forall j | 0 <= j < |forms| ensures r[j] == forms[j] {
      if forms[j].id == forms[i].id {
        assert MergeDraft(forms[j], DraftOf(forms[j])) == forms[j];
      }
    }
  }

  /**
   * A modal's field list, the field whose editor is open, and the editor's own state.
   * `config` only means something while the editor is mounted.
   */
  datatype Builder = Builder(fields: seq<FormField>, selected: Option<FormField>, showConfig: bool, config: FieldConfig)

  /** `showFieldConfig && selectedField`: the option editor is on screen. */
  predicate EditorMounted(b: Builder) {
    b.showConfig && b.selected.Some?
  }

  /** The open editor always belongs to a field still in the list. */
  predicate SelectionLive(b: Builder) {
    b.selected.Some? ==> exists i :: 0 <= i < |b.fields| && b.fields[i].id == b.selected.value.id
  }

  /**
   * `setSelectedField(f)` and `setShowFieldConfig(true)` as the page is written.
   * `FieldConfiguration` is rendered without a `key`, so React keeps a mounted editor and
   * its state; only an editor that was not on screen reads the field it is given.
   */
  function ShowEditorAsWritten(b: Builder, f: FormField): (r: Builder)
    ensures r.fields == b.fields && r.selected == Some(f) && EditorMounted(r)
    ensures EditorMounted(b) ==> r.config == b.config
    ensures !EditorMounted(b) ==> r.config == OpenConfig(f)
  {
    b.(selected := Some(f), showConfig := true, config := if EditorMounted(b) then b.config else OpenConfig(f))
  }

  /**
   * The same with `key={selectedField.id}` on the editor: switching to another field
   * remounts it on that field's values, and only the same field keeps the edits in progress.
   */
  function ShowEditor(b: Builder, f: FormField): (r: Builder)
    ensures r.fields == b.fields && r.selected == Some(f) && EditorMounted(r)
    ensures EditorMounted(b) && b.selected.value.id == f.id ==> r.config == b.config
    ensures !(EditorMounted(b) && b.selected.value.id == f.id) ==> r.config == OpenConfig(f)
  {
    if EditorMounted(b) && b.selected.value.id == f.id then b.(selected := Some(f))
    else b.(selected := Some(f), showConfig := true, config := OpenConfig(f))
  }

  /** `handleSave` then `onClose`: patch the selected field with the editor's values and close it. */
  function BuilderSave(b: Builder): (r: Builder)
    ensures !EditorMounted(r) && r.selected.None?
    ensures EditorMounted(b) ==> r.fields == UpdateField(b.fields, b.selected.value.id, ConfigPatch(b.config))
    ensures !EditorMounted(b) ==> r.fields == b.fields
  {
    if EditorMounted(b) then
      Builder(UpdateField(b.fields, b.selected.value.id, ConfigPatch(b.config)), None, false, b.config)
    else b.(selected := None, showConfig := false)
  }

  /** `addField` as written: append, then show the editor for the new field. */
  function BuilderAddAsWritten(b: Builder, newId: string, formId: string, t: FieldType): (r: Builder)
    ensures r.fields == AddField(b.fields, newId, formId, t)
    ensures r.selected == Some(r.fields[|b.fields|]) && EditorMounted(r)
    ensures EditorMounted(b) ==> r.config == b.config
  {
    var fs := AddField(b.fields, newId, formId, t);
    ShowEditorAsWritten(b.(fields := fs), fs[|b.fields|])
  }

  /** `addField` with a keyed editor: the editor opens on the new, blank field. */
  function BuilderAdd(b: Builder, newId: string, formId: string, t: FieldType): (r: Builder)
    ensures r.fields == AddField(b.fields, newId, formId, t)
    ensures r.selected == Some(r.fields[|b.fields|]) && EditorMounted(r)
    ensures !(EditorMounted(b) && b.selected.value.id == newId) ==> r.config == OpenConfig(r.fields[|b.fields|])
  {
    var fs := AddField(b.fields, newId, formId, t);
    ShowEditor(b.(fields := fs), fs[|b.fields|])
  }

  /** A click on row `i` as written. */
  function BuilderSelectAsWritten(b: Builder, i: nat): (r: Builder)
    requires i < |b.fields|
    ensures r.fields == b.fields && r.selected == Some(b.fields[i]) && EditorMounted(r)
    ensures EditorMounted(b) ==> r.config == b.config
  {
    ShowEditorAsWritten(b, b.fields[i])
  }

  /** A click on row `i` with a keyed editor: another field's editor opens on its own values. */
  function BuilderSelect(b: Builder, i: nat): (r: Builder)
    requires i < |b.fields|
    ensures r.fields == b.fields && r.selected == Some(b.fields[i]) && EditorMounted(r)
    ensures !(EditorMounted(b) && b.selected.value.id == b.fields[i].id) ==> r.config == OpenConfig(b.fields[i])
  {
    ShowEditor(b, b.fields[i])
  }

  /**
   * As written, adding a field while another field's editor is open and pressing Save
   * gives the new field the other field's label, required flag and options.
   */
  lemma AddWhileEditingSavesStaleValues(b: Builder, newId: string, formId: string, t: FieldType)
    requires EditorMounted(b)
    requires forall i :: 0 <= i < |b.fields| ==> b.fields[i].id != newId
    ensures var f := BuilderSave(BuilderAddAsWritten(b, newId, formId, t)).fields[|b.fields|];
      f.fieldLabel == b.config.fieldLabel && f.required == b.config.required && f.options == Some(b.config.options)
  {
    var a := BuilderAddAsWritten(b, newId, formId, t);
    assert a.fields[|b.fields|].id == newId;
  }

  /** Field "a" labelled "Email" is being edited; adding a textbox and saving labels it "Email". */
  lemma NewFieldTakesEditedLabel(a: FormField)
    requires a.id == "a" && a.fieldLabel == "Email"
    ensures var b := ShowEditorAsWritten(Builder([a], None, false, FieldConfig("", false, [], "")), a);
      BuilderSave(BuilderAddAsWritten(b, "n", "", Textbox)).fields[1].fieldLabel == "Email"
  {
    var b := ShowEditorAsWritten(Builder([a], None, false, FieldConfig("", false, [], "")), a);
    AddWhileEditingSavesStaleValues(b, "n", "", Textbox);
  }

  /**
   * With a keyed editor, adding a field and saving its editor untouched keeps the new field
   * blank (a field without options gets an empty list) and leaves the others alone.
   */
  lemma AddThenSaveUntouched(b: Builder, newId: string, formId: string, t: FieldType)
    requires SelectionLive(b)
    requires forall i :: 0 <= i < |b.fields| ==> b.fields[i].id != newId
    ensures var n := AddField(b.fields, newId, formId, t)[|b.fields|];
      var r := BuilderSave(BuilderAdd(b, newId, formId, t)).fields;
      |r| == |b.fields| + 1 && r[..|b.fields|] == b.fields && r[|b.fields|] == n.(options := Some(n.options.GetOr([])))
  {
    if EditorMounted(b) {
      var k :| 0 <= k < |b.fields| && b.fields[k].id == b.selected.value.id;
    }
    var a := BuilderAdd(b, newId, formId, t);
    var r := BuilderSave(a).fields;
    forall i | 0 <= i < |b.fields| ensures r[i] == b.fields[i] {
      assert a.fields[i] == b.fields[i];
    }
  }

  /**
   * With a keyed editor, opening another field's row and saving untouched changes nothing
   * of that field except that a missing option list becomes an empty one.
   */
  lemma SelectThenSaveUntouched(b: Builder, i: nat)
    requires i < |b.fields|
    requires !(EditorMounted(b) && b.selected.value.id == b.fields[i].id)
    requires forall j :: 0 <= j < |b.fields| && j != i ==> b.fields[j].id != b.fields[i].id
    ensures var r := BuilderSave(BuilderSelect(b, i)).fields;
      |r| == |b.fields| && r[i] == b.fields[i].(options := Some(b.fields[i].options.GetOr([])))
      && forall j :: 0 <= j < |b.fields| && j != i ==> r[j] == b.fields[j]
  {
  }

  /** `removeField`: drop the field and close the editor if it was that field's. */
  function BuilderRemove(b: Builder, id: string): (r: Builder)
    ensures r.fields == RemoveField(b.fields, id)
    ensures b.selected.Some? && b.selected.value.id == id ==> r.selected.None? && !r.showConfig
    ensures !(b.selected.Some? && b.selected.value.id == id) ==> r.selected == b.selected && r.showConfig == b.showConfig
  {
    var fs := RemoveField(b.fields, id);
    if b.selected.Some? && b.selected.value.id == id then b.(fields := fs, selected := None, showConfig := false)
    else b.(fields := fs)
  }

  /** `moveField` on the builder: the selection is untouched. */
  function BuilderMove(b: Builder, from: nat, to: nat): (r: Builder)
    requires from < |b.fields| && to < |b.fields|
    ensures r.fields == MoveField(b.fields, from, to) && r.selected == b.selected
  {
    b.(fields := MoveField(b.fields, from, to))
  }

  lemma BuilderAddKeepsSelectionLive(b: Builder, newId: string, formId: string, t: FieldType)
    ensures SelectionLive(BuilderAdd(b, newId, formId, t))
  {
    var r := BuilderAdd(b, newId, formId, t);
    assert r.fields[|b.fields|].id == r.selected.value.id;
  }

  lemma BuilderRemoveKeepsSelectionLive(b: Builder, id: string)
    requires SelectionLive(b)
    ensures SelectionLive(BuilderRemove(b, id))
  {
    var r := BuilderRemove(b, id);
    if r.selected.Some? {
      var i :| 0 <= i < |b.fields| && b.fields[i].id == b.selected.value.id;
      assert b.fields[i] in r.fields;
      var k :| 0 <= k < |r.fields| && r.fields[k] == b.fields[i];
    }
  }

  lemma BuilderMoveKeepsSelectionLive(b: Builder, from: nat, to: nat)
    requires from < |b.fields| && to < |b.fields|
    requires SelectionLive(b)
    ensures SelectionLive(BuilderMove(b, from, to))
  {
    var r := BuilderMove(b, from, to);
    if r.selected.Some? {
      var i :| 0 <= i < |b.fields| && b.fields[i].id == b.selected.value.id;
      var k := InverseMovedFrom(from, to, i);
      assert MovedFrom(from, to, k) == i;
      assert Erase(r.fields[k]) == Erase(b.fields[i]);
    }
  }

  /** The position a move sends element `j` to. */
  function InverseMovedFrom(from: nat, to: nat, j: nat): (k: nat)
    ensures MovedFrom(from, to, k) == j
  {
    if j == from then to
    else if from <= to then (if from < j <= to then j - 1 else j)
    else (if to <= j < from then j + 1 else j)
  }
}
