/** The filter bar's controls: what each one reports to the dashboard's
    filter-change handler. The department control is a multi-select whose
    value is a list; the others report one optional string. */
module FilterPanel {
  import opened Base
  import opened Types
  import opened Gather
  import App

  // ---------------------------------------------------------------------
  // The department multi-select
  // ---------------------------------------------------------------------

  /** `handleToggleOption`: a selected option is dropped, and a list that
      becomes empty is reported as no selection; an unselected option is
      appended. */
  function ToggleOption(value: seq<string>, option: string): (r: Option<seq<string>>)
    ensures option in value ==>
      && (r.None? <==> forall x :: x in value ==> x == option)
      && (r.Some? ==> r.value == Filter(value, Except(option)) && option !in r.value)
    ensures option !in value ==> r == Some(value + [option])
    ensures r.Some? ==> |r.value| > 0
  {
    if option in value then
      var rest := Filter(value, Except(option));
      FilterDrops(value, Except(option), option);
      KeptUnlessAll(value, option);
      if |rest| > 0 then Some(rest) else None
    else
      Some(value + [option])
  }

  /** The kept list is empty exactly when every entry was the option. */
  lemma KeptUnlessAll(value: seq<string>, option: string)
    ensures |Filter(value, Except(option))| == 0 <==> forall x :: x in value ==> x == option
  {
    forall x | x in value && x != option
      ensures x in Filter(value, Except(option))
    {
      FilterKeeps(value, Except(option), x);
    }
    var rest := Filter(value, Except(option));
    if |rest| > 0 {
      assert rest[0] in value && rest[0] != option;
    }
  }

  /** Toggling an option on and off again gives back the list, or no
      selection when the list was empty. */
  lemma ToggleTwice(value: seq<string>, option: string)
    requires option !in value
    ensures ToggleOption(ToggleOption(value, option).value, option) ==
      if value == [] then None else Some(value)
  {
    var once := value + [option];
    assert ToggleOption(value, option) == Some(once);
    FilterConcat(value, [option], Except(option));
    FilterAll(value, Except(option));
    assert [option][1..] == [];
    assert Filter([option], Except(option)) == [];
    assert Filter(once, Except(option)) == value;
    assert option in once;
  }

  /** The multi-select's own change: an empty selection is reported as
      none. */
  function ListboxChange(values: seq<string>): (r: Option<seq<string>>)
    ensures r.None? <==> values == []
    ensures r.Some? ==> r.value == values
  {
    if |values| > 0 then Some(values) else None
  }

  // ---------------------------------------------------------------------
  // What the controls report
  // ---------------------------------------------------------------------

  /** One call of the filter-change handler. */
  datatype Change =
    | TextChange(key: App.TextFilter, value: Option<string>)
    | DepartmentChange(departments: Option<seq<string>>)

  /** `e.target.value || null`: an emptied date input is no date. */
  function DateInput(text: string): (r: Option<string>)
    ensures r.None? <==> text == ""
    ensures r.Some? ==> r.value == text
  {
    if text == "" then None else Some(text)
  }

  /** The start-date and end-date inputs. */
  function StartDateInput(text: string): Change {
    TextChange(App.StartDateFilter, DateInput(text))
  }

  function EndDateInput(text: string): Change {
    TextChange(App.EndDateFilter, DateInput(text))
  }

  /** The reset buttons: a date's, a single select's and the
      multi-select's each report no value. */
  function ResetDate(key: App.TextFilter): Change
    requires key == App.StartDateFilter || key == App.EndDateFilter
  {
    TextChange(key, None)
  }

  function ResetSelect(key: App.TextFilter): Change
    requires key == App.MarketplaceFilter || key == App.WarehouseFilter
  {
    TextChange(key, None)
  }

  const ResetDepartments: Change := DepartmentChange(None)

  /** Toggling a department, against the current list (none is the empty
      list). */
  function ToggleDepartment(filters: FilterOptions, option: string): Change {
    DepartmentChange(ToggleOption(filters.department.GetOr([]), option))
  }

  function DepartmentListbox(values: seq<string>): Change {
    DepartmentChange(ListboxChange(values))
  }

  /** The handler applied to a change. */
  function Apply(filters: FilterOptions, c: Change): (r: FilterOptions)
    ensures c.DepartmentChange? ==> r == filters.(department := c.departments)
    ensures c.TextChange? ==> r == App.HandleFilterChange(filters, c.key, c.value)
  {
    match c
    case TextChange(key, value) => App.HandleFilterChange(filters, key, value)
    case DepartmentChange(value) => App.HandleDepartmentChange(filters, value)
  }

  /** The controls never store an empty department list: it is either a
      non-empty list or none. */
  predicate NoEmptyDepartments(filters: FilterOptions) {
    filters.department.None? || |filters.department.value| > 0
  }

  /** Every control's change keeps the department list non-empty or
      absent. */
  lemma ControlsKeepDepartmentsNonEmpty(filters: FilterOptions, option: string, values: seq<string>,
                                        text: string, key: App.TextFilter)
    requires NoEmptyDepartments(filters)
    ensures NoEmptyDepartments(Apply(filters, ToggleDepartment(filters, option)))
    ensures NoEmptyDepartments(Apply(filters, DepartmentListbox(values)))
    ensures NoEmptyDepartments(Apply(filters, ResetDepartments))
    ensures NoEmptyDepartments(Apply(filters, StartDateInput(text)))
    ensures NoEmptyDepartments(Apply(filters, EndDateInput(text)))
    ensures NoEmptyDepartments(Apply(filters, TextChange(key, DateInput(text))))
  {
  }

  /** Emptying both date inputs, or pressing both date resets, leaves no
      date range. */
  lemma ClearedDatesNoRange(filters: FilterOptions)
    ensures !App.HasDateRange(Apply(Apply(filters, StartDateInput("")), EndDateInput("")))
    ensures !App.HasDateRange(Apply(Apply(filters, ResetDate(App.StartDateFilter)), ResetDate(App.EndDateFilter)))
  {
  }

  /** A reset department control lets every department through the
      dashboard's filter again. */
  lemma ResetDepartmentsPassesAll(filters: FilterOptions, e: DeliveryEvent)
    requires App.AppPasses(filters.(department := Some([e.department])), e)
    ensures App.AppPasses(Apply(filters, ResetDepartments), e)
  {
  }
}
