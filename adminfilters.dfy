/**
 * The administrator's filter editor: one form for creating or editing a
 * filter, with a list of choices for the select kinds, and a save button
 * enabled only when the form is complete.
 */
module AdminFilters {
  import opened Wrappers
  import opened Js
  import FilterBar

  type FilterType = FilterBar.FilterType

  /** One choice of a select filter: what is shown and what is sent. */
  datatype Choice = Choice(caption: string, value: string)

  /** A filter as the server lists it; `id` and `options` may be absent. */
  datatype StoredFilter = StoredFilter(
    id: Option<int>,
    name: string,
    filterType: FilterType,
    labelText: string,
    sqlParameter: string,
    options: Option<seq<Choice>>,
    defaultValue: Option<string>,
    isActive: bool,
    displayOrder: int)

  /** The form's fields; `options` and `defaultValue` may be absent, as in a partial filter. */
  datatype Form = Form(
    name: string,
    filterType: FilterType,
    labelText: string,
    sqlParameter: string,
    options: Option<seq<Choice>>,
    defaultValue: Option<string>,
    isActive: bool,
    displayOrder: int)

  /** The page's state: the form, the filter being edited if any, and the new-choice inputs. */
  datatype Page = Page(form: Form, editing: Option<StoredFilter>, optionInput: Choice)

  /** The request `save` sends. */
  datatype SaveRequest = Put(path: string, body: Form) | Post(path: string, body: Form)

  const BlankForm := Form("", FilterBar.Select, "", "", Some([]), Some(""), true, 0)
  const BlankChoice := Choice("", "")

  /** `resetForm`: the blank form, no filter being edited, and empty choice inputs. */
  function ResetForm(p: Page): (r: Page)
    ensures r.editing.None?
  {
    Page(BlankForm, None, BlankChoice)
  }

  /** `filter_type === "select" || filter_type === "multi_select"`. */
  predicate NeedsOptions(t: FilterType) {
    t == FilterBar.Select || t == FilterBar.MultiSelect
  }

  /** The save button's `disabled` expression. */
  predicate SaveDisabled(f: Form) {
    f.name == "" || f.labelText == "" || f.sqlParameter == ""
    || (NeedsOptions(f.filterType) && (f.options.None? || |f.options.value| == 0))
  }

  /** The save button's `cursor` (and opacity) expression: `pointer` when true. */
  predicate SavePointer(f: Form) {
    f.name != "" && f.labelText != "" && f.sqlParameter != ""
    && (!NeedsOptions(f.filterType) || (f.options.Some? && |f.options.value| > 0))
  }

  /**
   * Save is enabled exactly when name, label and parameter are filled in and
   * a select kind has at least one choice; the pointer cursor shows exactly
   * then too.
   */
  lemma {:induction false} SaveEnabledSpec(f: Form)
    ensures !SaveDisabled(f) <==> SavePointer(f)
    ensures !SaveDisabled(f) <==>
              f.name != "" && f.labelText != "" && f.sqlParameter != ""
              && (f.filterType == FilterBar.Select || f.filterType == FilterBar.MultiSelect ==>
                    f.options.Some? && f.options.value != [])
  {
  }

  /** A fresh form can never be saved, and saving from it creates a filter. */
  lemma {:induction false} ResetFormSpec(p: Page)
    ensures SaveDisabled(ResetForm(p).form)
    ensures Save(ResetForm(p)).Post?
    ensures ResetForm(ResetForm(p)) == ResetForm(p)
  {
  }

  /** `form.options || []`. */
  function OptionsOrEmpty(options: Option<seq<Choice>>): seq<Choice> {
    if options.Some? then options.value else []
  }

  /**
   * `addOption`: with both inputs filled in, the choice is appended and the
   * inputs are cleared; otherwise nothing changes.
   */
  function AddOption(p: Page): (r: Page)
    ensures p.optionInput.caption != "" && p.optionInput.value != "" ==>
              r.form.options.Some?
              && r.form.options.value == OptionsOrEmpty(p.form.options) + [p.optionInput]
              && r.optionInput == BlankChoice
              && r.form == p.form.(options := r.form.options) && r.editing == p.editing
    ensures p.optionInput.caption == "" || p.optionInput.value == "" ==> r == p
  {
    if p.optionInput.caption != "" && p.optionInput.value != "" then
      p.(form := p.form.(options := Some(OptionsOrEmpty(p.form.options) + [p.optionInput])),
         optionInput := BlankChoice)
    else p
  }

  /** `options.filter((_, i) => i !== index)`. */
  function WithoutIndex(os: seq<Choice>, index: int): (r: seq<Choice>)
    ensures 0 <= index < |os| ==> r == os[..index] + os[index + 1..]
    ensures !(0 <= index < |os|) ==> r == os
  {
    if os == [] then []
    else
      var rest := WithoutIndex(os[1..], index - 1);
      assert 0 < index < |os| ==> os[1..][..index - 1] == os[1..index] && os[1..][index..] == os[index + 1..];
      if index == 0 then rest else [os[0]] + rest
  }

  /**
   * `removeOption(index)`: exactly the choice at `index` goes, the others
   * keep their order; an index outside the list changes nothing.
   */
  function RemoveOption(p: Page, index: int): (r: Page)
    ensures r.editing == p.editing && r.optionInput == p.optionInput
    ensures r.form == p.form.(options := r.form.options)
    ensures p.form.options.None? ==> r.form.options.None?
    ensures p.form.options.Some? ==>
              var os := p.form.options.value;
              r.form.options == Some(if 0 <= index < |os| then os[..index] + os[index + 1..] else os)
  {
    var options := if p.form.options.Some? then Some(WithoutIndex(p.form.options.value, index)) else None;
    p.(form := p.form.(options := options))
  }

  /** Removing the choice just added gives back the choices as they were. */
  lemma {:induction false} AddThenRemove(p: Page)
    requires p.optionInput.caption != "" && p.optionInput.value != ""
    ensures var os := OptionsOrEmpty(p.form.options);
            RemoveOption(AddOption(p), |os|).form.options == Some(os)
  {
    var os := OptionsOrEmpty(p.form.options);
    var added := os + [p.optionInput];
    assert AddOption(p).form.options == Some(added);
    assert added[..|os|] + added[|os| + 1..] == os;
  }

  /**
   * `handleEdit`: the filter becomes the one being edited and its fields fill
   * the form, a missing choice list as an empty one.
   */
  function HandleEdit(p: Page, f: StoredFilter): (r: Page)
    ensures r.editing == Some(f) && r.optionInput == p.optionInput
    ensures r.form.options == Some(OptionsOrEmpty(f.options))
  {
    p.(editing := Some(f),
       form := Form(f.name, f.filterType, f.labelText, f.sqlParameter, Some(OptionsOrEmpty(f.options)),
                    f.defaultValue, f.isActive, f.displayOrder))
  }

  /** The path segment of the edited filter's id: `String(id)`, `undefined` when absent. */
  function IdSegment(id: Option<int>): string {
    if id.Some? then IntToString(id.value) else "undefined"
  }

  /** `save`: an update of the filter being edited, or a creation. */
  function Save(p: Page): (r: SaveRequest)
    ensures r.body == p.form
    ensures r.Put? <==> p.editing.Some?
  {
    if p.editing.Some? then Put("/admin/filters/" + IdSegment(p.editing.value.id), p.form)
    else Post("/admin/filters", p.form)
  }

  /** Editing a stored filter and saving it right away sends an update to that filter with its own fields. */
  lemma {:induction false} EditThenSave(p: Page, f: StoredFilter)
    ensures var r := Save(HandleEdit(p, f));
            r == Put("/admin/filters/" + IdSegment(f.id), r.body)
            && r.body.name == f.name && r.body.sqlParameter == f.sqlParameter
            && r.body.options == Some(OptionsOrEmpty(f.options))
  {
  }
}
