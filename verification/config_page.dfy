/** The configuration page: validating the add/edit form, the selection of
    configurations to load, and how a submit or a delete changes the list
    shown and the selection. Which store is written follows the sign-in
    provider; the remote store's answers are parameters. */
module ConfigPage {
  import opened Base
  import opened Types
  import opened Gather
  import opened ConfigStore
  import SheetRows

  // ---------------------------------------------------------------------
  // Form validation
  // ---------------------------------------------------------------------

  /** The eight column designators of the form, in the order the form
      checks them. */
  datatype MappingColumn =
    | DateColumn | MarketplaceColumn | WarehouseColumn | DepartmentColumn
    | ItemCountColumn | RealizationNumberColumn | DeliveryNumberColumn | TransitWarehouseColumn

  const AllColumns: seq<MappingColumn> := [
    DateColumn, MarketplaceColumn, WarehouseColumn, DepartmentColumn,
    ItemCountColumn, RealizationNumberColumn, DeliveryNumberColumn, TransitWarehouseColumn]

  lemma AllColumnsComplete(c: MappingColumn)
    ensures c in AllColumns
  {
    match c
    case DateColumn => assert AllColumns[0] == c;
    case MarketplaceColumn => assert AllColumns[1] == c;
    case WarehouseColumn => assert AllColumns[2] == c;
    case DepartmentColumn => assert AllColumns[3] == c;
    case ItemCountColumn => assert AllColumns[4] == c;
    case RealizationNumberColumn => assert AllColumns[5] == c;
    case DeliveryNumberColumn => assert AllColumns[6] == c;
    case TransitWarehouseColumn => assert AllColumns[7] == c;
  }

  function Letter(m: ColumnMappings, c: MappingColumn): string {
    match c
    case DateColumn => m.dateColumn
    case MarketplaceColumn => m.marketplaceColumn
    case WarehouseColumn => m.warehouseColumn
    case DepartmentColumn => m.departmentColumn
    case ItemCountColumn => m.itemCountColumn
    case RealizationNumberColumn => m.realizationNumberColumn
    case DeliveryNumberColumn => m.deliveryNumberColumn
    case TransitWarehouseColumn => m.transitWarehouseColumn
  }

  /** The keys of the error record: the three text fields, and
      `columnMappings.<column>` for each designator. */
  datatype FormField = NameField | SpreadsheetIdField | SheetNameField | ColumnField(column: MappingColumn)

  const NameMissing: string := "Укажите название"
  const SpreadsheetIdMissing: string := "Укажите ID таблицы"
  const SheetNameMissing: string := "Укажите название листа"
  const ColumnMissing: string := "Укажите букву столбца"
  const ColumnMalformed: string := "Укажите одну заглавную букву (A-Z)"

  /** `/^[A-Z]$/`: exactly one capital Latin letter. */
  predicate ColumnLetterOk(s: string) {
    |s| == 1 && 'A' <= s[0] <= 'Z'
  }

  function ColumnMessage(letter: string): string {
    if letter == "" then ColumnMissing else ColumnMalformed
  }

  /** One round of the designator loop. */
  function CheckColumn(errors: map<FormField, string>, m: ColumnMappings, c: MappingColumn): map<FormField, string> {
    var letter := Letter(m, c);
    if ColumnLetterOk(letter) then errors else errors[ColumnField(c) := ColumnMessage(letter)]
  }

  /** The designator loop over `cols`: an error for each failing
      designator, the earlier errors kept. */
  function {:induction false} CheckColumns(errors: map<FormField, string>, m: ColumnMappings, cols: seq<MappingColumn>): (r: map<FormField, string>)
    ensures forall f :: f in r <==>
      f in errors || (f.ColumnField? && f.column in cols && !ColumnLetterOk(Letter(m, f.column)))
    ensures forall f :: f in r ==>
      r[f] == if f.ColumnField? && f.column in cols && !ColumnLetterOk(Letter(m, f.column))
              then ColumnMessage(Letter(m, f.column)) else errors[f]
    decreases |cols|
  {
    if cols == [] then errors
    else CheckColumns(CheckColumn(errors, m, cols[0]), m, cols[1..])
  }

  /** The form's fields: the three text fields and the eight designators. */
  ghost predicate FormValid(d: ConfigDraft) {
    && d.name != "" && d.spreadsheetId != "" && d.sheetName != ""
    && forall c :: ColumnLetterOk(Letter(d.columnMappings, c))
  }

  /** The errors of the three text fields. */
  function TextErrors(d: ConfigDraft): (errors: map<FormField, string>)
    ensures NameField in errors <==> d.name == ""
    ensures SpreadsheetIdField in errors <==> d.spreadsheetId == ""
    ensures SheetNameField in errors <==> d.sheetName == ""
    ensures NameField in errors ==> errors[NameField] == NameMissing
    ensures SpreadsheetIdField in errors ==> errors[SpreadsheetIdField] == SpreadsheetIdMissing
    ensures SheetNameField in errors ==> errors[SheetNameField] == SheetNameMissing
    ensures forall f :: f in errors ==> !f.ColumnField?
  {
    var e1: map<FormField, string> := if d.name == "" then map[NameField := NameMissing] else map[];
    var e2 := if d.spreadsheetId == "" then e1[SpreadsheetIdField := SpreadsheetIdMissing] else e1;
    if d.sheetName == "" then e2[SheetNameField := SheetNameMissing] else e2
  }

  /** `validateForm`: the error record, one entry per failing field. */
  function ValidateForm(d: ConfigDraft): (errors: map<FormField, string>)
    ensures NameField in errors <==> d.name == ""
    ensures SpreadsheetIdField in errors <==> d.spreadsheetId == ""
    ensures SheetNameField in errors <==> d.sheetName == ""
    ensures NameField in errors ==> errors[NameField] == NameMissing
    ensures SpreadsheetIdField in errors ==> errors[SpreadsheetIdField] == SpreadsheetIdMissing
    ensures SheetNameField in errors ==> errors[SheetNameField] == SheetNameMissing
    ensures forall c :: ColumnField(c) in errors <==> !ColumnLetterOk(Letter(d.columnMappings, c))
    ensures forall c :: ColumnField(c) in errors ==>
      errors[ColumnField(c)] == ColumnMessage(Letter(d.columnMappings, c))
  {
    var text := TextErrors(d);
    CheckAllColumns(text, d.columnMappings);
    CheckColumns(text, d.columnMappings, AllColumns)
  }

  /** The designator loop over all eight columns, started from errors that
      name no column. */
  lemma CheckAllColumns(errors: map<FormField, string>, m: ColumnMappings)
    requires forall f :: f in errors ==> !f.ColumnField?
    ensures var r := CheckColumns(errors, m, AllColumns);
      && (forall c :: ColumnField(c) in r <==> !ColumnLetterOk(Letter(m, c)))
      && (forall c :: ColumnField(c) in r ==> r[ColumnField(c)] == ColumnMessage(Letter(m, c)))
      && (forall f: FormField :: !f.ColumnField? ==> (f in r <==> f in errors))
      && (forall f: FormField :: !f.ColumnField? && f in r ==> r[f] == errors[f])
  {
    var r := CheckColumns(errors, m, AllColumns);
    forall c
      ensures ColumnField(c) in r <==> !ColumnLetterOk(Letter(m, c))
      ensures ColumnField(c) in r ==> r[ColumnField(c)] == ColumnMessage(Letter(m, c))
    {
      AllColumnsComplete(c);
    }
  }

  /** The form is accepted exactly when every field is valid. */
  lemma ValidateAcceptsValid(d: ConfigDraft)
    ensures ValidateForm(d) == map[] <==> FormValid(d)
  {
    var errors := ValidateForm(d);
    if !FormValid(d) {
      if d.name == "" {
        assert NameField in errors;
      } else if d.spreadsheetId == "" {
        assert SpreadsheetIdField in errors;
      } else if d.sheetName == "" {
        assert SheetNameField in errors;
      } else {
        var c :| !ColumnLetterOk(Letter(d.columnMappings, c));
        assert ColumnField(c) in errors;
      }
    } else {
      forall f | f in errors
        ensures false
      {
        match f
        case NameField =>
        case SpreadsheetIdField =>
        case SheetNameField =>
        case ColumnField(c) =>
      }
      assert errors.Keys == {};
    }
  }

  // ---------------------------------------------------------------------
  // Selection
  // ---------------------------------------------------------------------

  /** `toggleSelectConfig`: a selected id is dropped (every copy of it);
      an unselected one is appended. */
  function ToggleSelectConfig(selected: seq<string>, id: string): (r: seq<string>)
    ensures id in r <==> id !in selected
    ensures forall x :: x != id ==> (x in r <==> x in selected)
    ensures id !in selected ==> r == selected + [id]
    ensures id in selected ==> IsSubsequence(r, selected) && |r| < |selected|
  {
    if id in selected then
      FilterIsSubsequence(selected, Except(id));
      forall x | x in selected && x != id
        ensures x in Filter(selected, Except(id))
      {
        FilterKeeps(selected, Except(id), x);
      }
      FilterDrops(selected, Except(id), id);
      Filter(selected, Except(id))
    else
      selected + [id]
  }

  /** Toggling an id on and off again restores the selection. */
  lemma ToggleTwiceRestores(selected: seq<string>, id: string)
    requires id !in selected
    ensures ToggleSelectConfig(ToggleSelectConfig(selected, id), id) == selected
  {
    FilterConcat(selected, [id], Except(id));
    FilterAll(selected, Except(id));
  }

  /** `handleSelectAll`: a selection as long as the list is cleared; any
      other becomes every id, in list order. */
  function HandleSelectAll(configs: seq<SheetsConfig>, selected: seq<string>): (r: seq<string>)
    ensures |selected| == |configs| ==> r == []
    ensures |selected| != |configs| ==> r == Ids(configs)
  {
    if |configs| == |selected| then [] else Ids(configs)
  }

  ghost predicate Unique(xs: seq<string>) {
    forall i, j :: 0 <= i < j < |xs| ==> xs[i] != xs[j]
  }

  lemma {:induction false} UniqueCard(xs: seq<string>)
    requires Unique(xs)
    ensures |set x | x in xs| == |xs|
    decreases |xs|
  {
    if xs != [] {
      var n := |xs| - 1;
      var pre := xs[..n];
      assert Unique(pre) by {
        forall i, j | 0 <= i < j < |pre|
          ensures pre[i] != pre[j]
        {
          assert pre[i] == xs[i] && pre[j] == xs[j];
        }
      }
      UniqueCard(pre);
      assert xs == pre + [xs[n]];
      assert (set x | x in xs) == (set x | x in pre) + {xs[n]};
      assert xs[n] !in pre by {
        forall i | 0 <= i < |pre|
          ensures pre[i] != xs[n]
        {
          assert pre[i] == xs[i];
        }
      }
    }
  }

  /** A duplicate-free subset of the ids is as long as the list exactly
      when every id is selected: for a selection kept that way, the
      length test of `handleSelectAll` means "all are selected". */
  lemma SelectAllMeansAllSelected(configs: seq<SheetsConfig>, selected: seq<string>)
    requires Unique(Ids(configs)) && Unique(selected)
    requires forall x :: x in selected ==> x in Ids(configs)
    ensures |selected| == |configs| <==> forall c :: c in configs ==> c.id in selected
  {
    var ids := Ids(configs);
    var a := set x | x in selected;
    var b := set x | x in ids;
    UniqueCard(selected);
    UniqueCard(ids);
    assert a <= b;
    if |selected| == |configs| {
      assert |b - a| == |b| - |a|;
      assert b - a == {};
      forall c | c in configs
        ensures c.id in selected
      {
        var i :| 0 <= i < |configs| && configs[i] == c;
        assert ids[i] == c.id;
        assert c.id in b;
      }
    }
    if forall c :: c in configs ==> c.id in selected {
      forall x | x in b
        ensures x in a
      {
        var i :| 0 <= i < |ids| && ids[i] == x;
        assert configs[i] in configs;
      }
      assert a == b;
    }
  }

  // ---------------------------------------------------------------------
  // The page
  // ---------------------------------------------------------------------

  /** The page's state: the configurations shown, the selection, the form
      and its errors, and whether it is open and for which id. */
  datatype Page = Page(
    configs: seq<SheetsConfig>,
    selected: seq<string>,
    form: ConfigDraft,
    errors: map<FormField, string>,
    adding: bool,
    editing: Option<string>)

  const DefaultForm: ConfigDraft := ConfigDraft("", "", "Лист1", None, SheetRows.DefaultMappings)

  /** `resetForm`: an empty form for sheet 'Лист1' with columns A to H,
      no errors, closed. */
  function ResetForm(p: Page): (r: Page)
    ensures r.form.name == "" && r.form.spreadsheetId == "" && r.form.sheetName == "Лист1"
    ensures r.form.columnMappings == ColumnMappings("A", "B", "C", "D", "E", "F", "G", "H")
    ensures r.errors == map[] && !r.adding && r.editing.None?
    ensures r.configs == p.configs && r.selected == p.selected
  {
    p.(form := DefaultForm, errors := map[], adding := false, editing := None)
  }

  lemma DefaultLetterOk(c: MappingColumn)
    ensures ColumnLetterOk(Letter(DefaultForm.columnMappings, c))
  {
    match c
    case DateColumn => assert Letter(DefaultForm.columnMappings, c) == "A";
    case MarketplaceColumn => assert Letter(DefaultForm.columnMappings, c) == "B";
    case WarehouseColumn => assert Letter(DefaultForm.columnMappings, c) == "C";
    case DepartmentColumn => assert Letter(DefaultForm.columnMappings, c) == "D";
    case ItemCountColumn => assert Letter(DefaultForm.columnMappings, c) == "E";
    case RealizationNumberColumn => assert Letter(DefaultForm.columnMappings, c) == "F";
    case DeliveryNumberColumn => assert Letter(DefaultForm.columnMappings, c) == "G";
    case TransitWarehouseColumn => assert Letter(DefaultForm.columnMappings, c) == "H";
  }

  /** A reset form asks for exactly a name and a spreadsheet id. */
  lemma DefaultFormNeeds()
    ensures ValidateForm(DefaultForm).Keys == {NameField, SpreadsheetIdField}
  {
    var errors := ValidateForm(DefaultForm);
    forall c
      ensures ColumnField(c) !in errors
    {
      DefaultLetterOk(c);
    }
    forall f | f in errors
      ensures f == NameField || f == SpreadsheetIdField
    {
      match f
      case NameField =>
      case SpreadsheetIdField =>
      case SheetNameField =>
      case ColumnField(c) =>
    }
  }

  /** Where a submit writes: the local store for a direct OAuth sign-in,
      the remote store for a federated one with a uid, nowhere otherwise. */
  datatype Target = LocalTarget | RemoteTarget | NoTarget

  function SubmitTarget(auth: AuthState): Target {
    if auth.provider == Some(Google) then LocalTarget
    else if auth.provider == Some(Firebase) && auth.user.Some? &&
            auth.user.value.FirebaseUser? && auth.user.value.uid != "" then RemoteTarget
    else NoTarget
  }

  /** The list after an edit: every entry with the edited id becomes the
      form's configuration under that id. */
  function ReplaceById(configs: seq<SheetsConfig>, id: string, c: SheetsConfig): (r: seq<SheetsConfig>)
    ensures |r| == |configs|
    ensures forall i :: 0 <= i < |r| ==> r[i] == if configs[i].id == id then c else configs[i]
  {
    seq(|configs|, i requires 0 <= i < |configs| => if configs[i].id == id then c else configs[i])
  }

  /** `handleSubmit`. An invalid form only records its errors. A valid one
      is written: an edit (a non-empty `editing` id) replaces that id's
      entries; an addition appends the stored configuration and selects
      it. `freshId` is the id the local store draws, `remoteAdded` what the
      remote store returns for an addition. The form is then reset,
      whichever store, if any, was written. */
  function HandleSubmit(p: Page, auth: AuthState, store: Stored, freshId: string,
                        remoteAdded: Option<SheetsConfig>): (r: (Page, Stored))
    ensures ValidateForm(p.form) != map[] ==> r == (p.(errors := ValidateForm(p.form)), store)
    ensures ValidateForm(p.form) == map[] ==> r.0 == ResetForm(r.0) && r.0.errors == map[]
    ensures ValidateForm(p.form) == map[] && Truthy(p.editing) && SubmitTarget(auth) != NoTarget ==>
      && r.0.configs == ReplaceById(p.configs, p.editing.value, WithId(p.form, p.editing.value))
      && r.0.selected == p.selected
    ensures ValidateForm(p.form) == map[] && !Truthy(p.editing) && SubmitTarget(auth) == LocalTarget ==>
      && r.0.configs == p.configs + [WithId(p.form, freshId)]
      && r.0.selected == p.selected + [freshId]
      && r.1 == AddConfig(store, p.form, freshId).0
    ensures ValidateForm(p.form) == map[] && !Truthy(p.editing) && SubmitTarget(auth) == RemoteTarget ==>
      && (remoteAdded.Some? ==> r.0.configs == p.configs + [remoteAdded.value] &&
                                r.0.selected == p.selected + [remoteAdded.value.id])
      && (remoteAdded.None? ==> r.0.configs == p.configs && r.0.selected == p.selected)
    ensures ValidateForm(p.form) == map[] && Truthy(p.editing) && SubmitTarget(auth) == LocalTarget ==>
      r.1 == UpdateConfig(store, WithId(p.form, p.editing.value)).0
    ensures SubmitTarget(auth) == NoTarget ==> r.0.configs == p.configs && r.0.selected == p.selected
    ensures SubmitTarget(auth) != LocalTarget ==> r.1 == store
  {
    var errors := ValidateForm(p.form);
    if errors != map[] then (p.(errors := errors), store)
    else
      var p1 := p.(errors := errors);
      var written: (Page, Stored) :=
        match SubmitTarget(auth)
        case LocalTarget =>
          if Truthy(p.editing) then
            var c := WithId(p.form, p.editing.value);
            (p1.(configs := ReplaceById(p.configs, c.id, c)), UpdateConfig(store, c).0)
          else
            var (st, c) := AddConfig(store, p.form, freshId);
            (p1.(configs := p.configs + [c], selected := p.selected + [c.id]), st)
        case RemoteTarget =>
          if Truthy(p.editing) then
            var c := WithId(p.form, p.editing.value);
            (p1.(configs := ReplaceById(p.configs, c.id, c)), store)
          else if remoteAdded.Some? then
            var c := remoteAdded.value;
            (p1.(configs := p.configs + [c], selected := p.selected + [c.id]), store)
          else (p1, store)
        case NoTarget => (p1, store);
      (ResetForm(written.0), written.1)
  }

  /** The page's list and the local store agree before a local submit, so
      they agree after it (for an edit, when the ids are unique). */
  lemma LocalSubmitKeepsSync(p: Page, auth: AuthState, store: Stored, freshId: string, remoteAdded: Option<SheetsConfig>)
    requires SubmitTarget(auth) == LocalTarget && ValidateForm(p.form) == map[]
    requires GetAllConfigs(store) == p.configs
    requires Unique(Ids(p.configs))
    requires Truthy(p.editing) ==> HasId(p.configs, p.editing.value)
    ensures var r := HandleSubmit(p, auth, store, freshId, remoteAdded);
      GetAllConfigs(r.1) == r.0.configs
  {
    if Truthy(p.editing) {
      var c := WithId(p.form, p.editing.value);
      EditMatchesStore(store, c);
    }
  }

  /** With unique ids, replacing the first entry with an id (the store's
      update) and replacing every entry with it (the page's) agree. */
  lemma EditMatchesStore(store: Stored, c: SheetsConfig)
    requires Unique(Ids(GetAllConfigs(store))) && HasId(GetAllConfigs(store), c.id)
    ensures GetAllConfigs(UpdateConfig(store, c).0) == ReplaceById(GetAllConfigs(store), c.id, c)
  {
    var before := GetAllConfigs(store);
    var k := FindIndex(before, c.id);
    assert UpdateConfig(store, c).0 == Parsed(before[k := c]);
    var ids := Ids(before);
    var replaced := ReplaceById(before, c.id, c);
    forall j | 0 <= j < |before|
      ensures before[k := c][j] == replaced[j]
    {
      if j != k {
        UniqueAt(ids, j, k);
      }
    }
    assert before[k := c] == replaced;
  }

  lemma UniqueAt(xs: seq<string>, i: nat, j: nat)
    requires Unique(xs) && i < |xs| && j < |xs| && i != j
    ensures xs[i] != xs[j]
  {
    if i > j {
      assert xs[j] != xs[i];
    }
  }

  /** `handleDelete`, once confirmed: the local store's or the remote
      store's answer decides; a deletion removes the id from the list and
      the selection, a refusal leaves both as they were. Without a
      provider nothing is deleted. */
  function HandleDelete(p: Page, auth: AuthState, store: Stored, id: string, confirmed: bool,
                        remoteDeleted: bool): (r: (Page, Stored))
    ensures !confirmed ==> r == (p, store)
    ensures var deleted := confirmed && (
        || (auth.provider == Some(Google) && HasId(GetAllConfigs(store), id))
        || (auth.provider == Some(Firebase) && remoteDeleted));
      && (deleted ==> r.0 == p.(configs := WithoutId(p.configs, id),
                                selected := Filter(p.selected, Except(id))))
      && (!deleted ==> r.0 == p)
    ensures auth.provider == Some(Google) ==> r.1 == if confirmed then DeleteConfig(store, id).0 else store
    ensures auth.provider != Some(Google) ==> r.1 == store
    ensures forall c :: c in r.0.configs ==> c.id != id || r.0 == p
    ensures forall x :: x in r.0.selected ==> x != id || r.0 == p
  {
    if !confirmed then (p, store)
    else
      var (st, deleted) :=
        if auth.provider == Some(Google) then DeleteConfig(store, id)
        else if auth.provider == Some(Firebase) then (store, remoteDeleted)
        else (store, false);
      if deleted then
        (p.(configs := WithoutId(p.configs, id), selected := Filter(p.selected, Except(id))), st)
      else (p, st)
  }

  /** A local delete keeps the page's list and the store in step. */
  lemma LocalDeleteKeepsSync(p: Page, auth: AuthState, store: Stored, id: string, remoteDeleted: bool)
    requires auth.provider == Some(Google)
    requires GetAllConfigs(store) == p.configs
    ensures var r := HandleDelete(p, auth, store, id, true, remoteDeleted);
      GetAllConfigs(r.1) == r.0.configs
  {
  }
}
