/** The delivery dialog: the edited copy of an event and how inputs change
    it, the record a save submits, cancelling, the header colour and the
    link to the event's spreadsheet. Department, marketplace and source
    configuration are locked: no input changes them and a save always
    submits the original's. */
module DeliveryModal {
  import opened Base
  import opened Strings
  import opened Types
  import opened ConfigStore
  import Colors

  // ---------------------------------------------------------------------
  // The edited copy
  // ---------------------------------------------------------------------

  /** The fields an input can name (`keyof DeliveryEvent`). */
  datatype EventField =
    | IdField | TitleField | DateField | MarketplaceField | WarehouseField | DepartmentField
    | ItemCountField | RealizationNumberField | ConfigIdField | DeliveryNumberField | TransitWarehouseField

  /** One field's value, whatever its type. */
  datatype FieldValue = Text(text: string) | Optional(opt: Option<string>) | Count(n: int)

  function ValueOf(e: DeliveryEvent, f: EventField): FieldValue {
    match f
    case IdField => Text(e.id)
    case TitleField => Text(e.title)
    case DateField => Text(e.date)
    case MarketplaceField => Text(e.marketplace)
    case WarehouseField => Text(e.warehouse)
    case DepartmentField => Text(e.department)
    case ItemCountField => Count(e.itemCount)
    case RealizationNumberField => Optional(e.realizationNumber)
    case ConfigIdField => Optional(e.configId)
    case DeliveryNumberField => Optional(e.deliveryNumber)
    case TransitWarehouseField => Optional(e.transitWarehouse)
  }

  /** Two events with the same value in every field are the same event. */
  lemma SameValuesSameEvent(a: DeliveryEvent, b: DeliveryEvent)
    requires forall f :: ValueOf(a, f) == ValueOf(b, f)
    ensures a == b
  {
    assert ValueOf(a, IdField) == ValueOf(b, IdField);
    assert ValueOf(a, TitleField) == ValueOf(b, TitleField);
    assert ValueOf(a, DateField) == ValueOf(b, DateField);
    assert ValueOf(a, MarketplaceField) == ValueOf(b, MarketplaceField);
    assert ValueOf(a, WarehouseField) == ValueOf(b, WarehouseField);
    assert ValueOf(a, DepartmentField) == ValueOf(b, DepartmentField);
    assert ValueOf(a, ItemCountField) == ValueOf(b, ItemCountField);
    assert ValueOf(a, RealizationNumberField) == ValueOf(b, RealizationNumberField);
    assert ValueOf(a, ConfigIdField) == ValueOf(b, ConfigIdField);
    assert ValueOf(a, DeliveryNumberField) == ValueOf(b, DeliveryNumberField);
    assert ValueOf(a, TransitWarehouseField) == ValueOf(b, TransitWarehouseField);
  }

  /** The locked fields. */
  predicate Locked(f: EventField) {
    f == MarketplaceField || f == DepartmentField
  }

  /** The dialog's state: the edited copy, whether its count is NaN (the
      integer parse of a text without digits), and whether it is in edit
      mode. */
  datatype Edit = Edit(event: DeliveryEvent, countIsNaN: bool, editing: bool)

  /** The copy the dialog starts from: the event itself. */
  function Open(event: DeliveryEvent): (r: Edit)
    ensures r.event == event && !r.countIsNaN && !r.editing
  {
    Edit(event, false, false)
  }

  /** One field set to a text. */
  function SetField(e: DeliveryEvent, f: EventField, value: string): (r: DeliveryEvent)
    requires !Locked(f) && f != ItemCountField
    ensures ValueOf(r, f) == InputValue(f, value)
    ensures forall g :: g != f ==> ValueOf(r, g) == ValueOf(e, g)
  {
    match f
    case IdField => e.(id := value)
    case TitleField => e.(title := value)
    case DateField => e.(date := value)
    case WarehouseField => e.(warehouse := value)
    case RealizationNumberField => e.(realizationNumber := Some(value))
    case ConfigIdField => e.(configId := Some(value))
    case DeliveryNumberField => e.(deliveryNumber := Some(value))
    case TransitWarehouseField => e.(transitWarehouse := Some(value))
  }

  /** The fields whose value may be absent. */
  predicate OptionalField(f: EventField) {
    f == RealizationNumberField || f == ConfigIdField || f == DeliveryNumberField || f == TransitWarehouseField
  }

  /** The value a text input gives a field other than the count. */
  function InputValue(f: EventField, value: string): FieldValue
    requires f != ItemCountField
  {
    if OptionalField(f) then Optional(Some(value)) else Text(value)
  }

  /** `handleInputChange`: the locked fields ignore input; the count is
      integer-parsed from the text; any other field takes the text. */
  function HandleInputChange(e: Edit, f: EventField, value: string): (r: Edit)
    ensures Locked(f) ==> r == e
    ensures r.event.marketplace == e.event.marketplace && r.event.department == e.event.department
    ensures forall g :: g != f ==> ValueOf(r.event, g) == ValueOf(e.event, g)
    ensures !Locked(f) && f != ItemCountField ==>
      ValueOf(r.event, f) == InputValue(f, value) && r.countIsNaN == e.countIsNaN
    ensures f == ItemCountField && ParseInt(value).Some? ==>
      r.event.itemCount == ParseInt(value).value && !r.countIsNaN
    ensures f == ItemCountField && ParseInt(value).None? ==> r.event == e.event && r.countIsNaN
    ensures r.editing == e.editing
  {
    if Locked(f) then e
    else if f == ItemCountField then CountInput(e, value)
    else
      var r := e.(event := SetField(e.event, f, value));
      assert ValueOf(r.event, MarketplaceField) == ValueOf(e.event, MarketplaceField);
      assert ValueOf(r.event, DepartmentField) == ValueOf(e.event, DepartmentField);
      r
  }

  /** The count input: `parseInt` of the text, or the NaN flag when no
      number starts it. */
  function CountInput(e: Edit, value: string): (r: Edit)
    ensures forall g :: g != ItemCountField ==> ValueOf(r.event, g) == ValueOf(e.event, g)
    ensures ParseInt(value).Some? ==> r.event.itemCount == ParseInt(value).value && !r.countIsNaN
    ensures ParseInt(value).None? ==> r.event == e.event && r.countIsNaN
    ensures r.editing == e.editing
  {
    match ParseInt(value)
    case Some(n) => e.(event := e.event.(itemCount := n), countIsNaN := false)
    case None => e.(countIsNaN := true)
  }

  /** Typing a field's old text back restores the copy. */
  lemma RetypeRestores(e: Edit, f: EventField, other: string, value: string)
    requires !Locked(f) && f != ItemCountField
    requires ValueOf(e.event, f) == InputValue(f, value)
    ensures HandleInputChange(HandleInputChange(e, f, other), f, value) == e
  {
    var r := HandleInputChange(HandleInputChange(e, f, other), f, value);
    SameValuesSameEvent(r.event, e.event);
  }

  /** A run of inputs. */
  function ApplyInputs(e: Edit, inputs: seq<(EventField, string)>): Edit
    decreases |inputs|
  {
    if inputs == [] then e
    else ApplyInputs(HandleInputChange(e, inputs[0].0, inputs[0].1), inputs[1..])
  }

  /** No run of inputs changes a locked field, or the edit mode. */
  lemma {:induction false} InputsKeepLocked(e: Edit, inputs: seq<(EventField, string)>)
    ensures ApplyInputs(e, inputs).event.marketplace == e.event.marketplace
    ensures ApplyInputs(e, inputs).event.department == e.event.department
    ensures ApplyInputs(e, inputs).editing == e.editing
    decreases |inputs|
  {
    if inputs != [] {
      InputsKeepLocked(HandleInputChange(e, inputs[0].0, inputs[0].1), inputs[1..]);
    }
  }

  /** The record `handleSave` submits: the edited copy with the original's
      department, marketplace and configuration id. */
  function SaveRecord(original: DeliveryEvent, e: Edit): (r: DeliveryEvent)
    ensures r.department == original.department && r.marketplace == original.marketplace
    ensures r.configId == original.configId
    ensures forall g :: g != ConfigIdField && !Locked(g) ==> ValueOf(r, g) == ValueOf(e.event, g)
  {
    e.event.(department := original.department, marketplace := original.marketplace, configId := original.configId)
  }

  /** Saving after inputs that named none of the three protected fields
      submits exactly the edited copy, when it started from the original. */
  lemma SaveOfUnlockedEdits(original: DeliveryEvent, inputs: seq<(EventField, string)>)
    ensures var e := ApplyInputs(Open(original), inputs);
      SaveRecord(original, e).marketplace == original.marketplace &&
      SaveRecord(original, e).department == original.department &&
      (e.event.configId == original.configId ==> SaveRecord(original, e) == e.event)
  {
    InputsKeepLocked(Open(original), inputs);
  }

  /** After the write: a successful save leaves edit mode, a failed one
      keeps the dialog as it was. */
  function SaveFinished(e: Edit, success: bool): (r: Edit)
    ensures r.event == e.event && r.countIsNaN == e.countIsNaN
    ensures r.editing <==> e.editing && !success
  {
    if success then e.(editing := false) else e
  }

  /** `handleCancel`: back to the original, out of edit mode. */
  function HandleCancel(original: DeliveryEvent, e: Edit): (r: Edit)
    ensures r.event == original && !r.countIsNaN && !r.editing
  {
    Open(original)
  }

  /** Cancelling undoes any run of inputs. */
  lemma CancelUndoesInputs(original: DeliveryEvent, inputs: seq<(EventField, string)>)
    ensures HandleCancel(original, ApplyInputs(Open(original), inputs)) == Open(original)
  {
  }

  // ---------------------------------------------------------------------
  // Header colour and spreadsheet link
  // ---------------------------------------------------------------------

  /** The header colour effect: no marketplace keeps the previous colour;
      otherwise a substring test on the lower-cased name, 'ozon' first,
      then 'wildberries', then 'яндекс' or 'yandex'. */
  function HeaderColor(marketplace: string, previous: string): (c: string)
    ensures marketplace == "" ==> c == previous
    ensures marketplace != "" ==> (c == Colors.OzonColor <==> Contains(Lower(marketplace), "ozon"))
    ensures marketplace != "" ==> (c == Colors.WildberriesColor <==>
      !Contains(Lower(marketplace), "ozon") && Contains(Lower(marketplace), "wildberries"))
    ensures marketplace != "" ==> (c == Colors.YandexColor <==>
      !Contains(Lower(marketplace), "ozon") && !Contains(Lower(marketplace), "wildberries") &&
      (Contains(Lower(marketplace), "яндекс") || Contains(Lower(marketplace), "yandex")))
    ensures marketplace != "" ==>
      c in {Colors.OzonColor, Colors.WildberriesColor, Colors.YandexColor, Colors.OtherColor}
  {
    if marketplace == "" then previous
    else
      var l := Lower(marketplace);
      if Contains(l, "ozon") then Colors.OzonColor
      else if Contains(l, "wildberries") then Colors.WildberriesColor
      else if Contains(l, "яндекс") || Contains(l, "yandex") then Colors.YandexColor
      else Colors.OtherColor
  }

  /** The colour before the effect first runs. */
  const InitialHeaderColor: string := Colors.OtherColor

  /** The header colour follows the locked marketplace, so no input
      changes it. */
  lemma HeaderColorStable(original: DeliveryEvent, inputs: seq<(EventField, string)>)
    ensures HeaderColor(ApplyInputs(Open(original), inputs).event.marketplace, InitialHeaderColor) ==
            HeaderColor(original.marketplace, InitialHeaderColor)
  {
    InputsKeepLocked(Open(original), inputs);
  }

  /** On the three canonical labels the header agrees with the colour map. */
  lemma HeaderMatchesColorMap()
    ensures HeaderColor(Ozon, InitialHeaderColor) == Colors.MarketplaceColor(Ozon)
    ensures HeaderColor(Wildberries, InitialHeaderColor) == Colors.MarketplaceColor(Wildberries)
    ensures HeaderColor(YandexMarket, InitialHeaderColor) == Colors.MarketplaceColor(YandexMarket)
  {
    Colors.LabelColors();
    assert Lower(Ozon) == "ozon";
    ContainsSelf("ozon");
    assert Lower(Wildberries) == "wildberries";
    NotContains("wildberries", "ozon", 0);
    ContainsSelf("wildberries");
    var y := Lower(YandexMarket);
    assert y == "яндекс.маркет";
    NotContains(y, "ozon", 0);
    NotContains(y, "wildberries", 0);
    assert MatchesAt(y, "яндекс", 0);
  }

  const SheetUrlPrefix: string := "https://docs.google.com/spreadsheets/d/"
  const SheetUrlSuffix: string := "/edit"

  function SheetUrl(spreadsheetId: string): string {
    SheetUrlPrefix + spreadsheetId + SheetUrlSuffix
  }

  /** The spreadsheet id read back from a link. */
  function SpreadsheetIdOf(url: string): Option<string> {
    if |url| >= |SheetUrlPrefix| + |SheetUrlSuffix| && StartsWith(url, SheetUrlPrefix) &&
       EndsWith(url, SheetUrlSuffix)
    then Some(url[|SheetUrlPrefix|..|url| - |SheetUrlSuffix|])
    else None
  }

  lemma SheetUrlRoundTrip(spreadsheetId: string)
    ensures SpreadsheetIdOf(SheetUrl(spreadsheetId)) == Some(spreadsheetId)
  {
    var url := SheetUrl(spreadsheetId);
    assert url[..|SheetUrlPrefix|] == SheetUrlPrefix;
    assert url[|url| - |SheetUrlSuffix|..] == SheetUrlSuffix;
    assert url[|SheetUrlPrefix|..|url| - |SheetUrlSuffix|] == spreadsheetId;
  }

  /** `getGoogleSheetsUrlUpdated`: no link without a configuration id; the
      local store's configuration first, then the remote one loaded for
      the event, else none. */
  function GoogleSheetsUrl(event: DeliveryEvent, local: Stored, remote: Option<SheetsConfig>): (r: Option<string>)
    ensures !Truthy(event.configId) ==> r.None?
    ensures Truthy(event.configId) && HasId(GetAllConfigs(local), event.configId.value) ==>
      r == Some(SheetUrl(GetConfigById(local, event.configId.value).value.spreadsheetId))
    ensures Truthy(event.configId) && !HasId(GetAllConfigs(local), event.configId.value) ==>
      r == if remote.Some? then Some(SheetUrl(remote.value.spreadsheetId)) else None
  {
    if !Truthy(event.configId) then None
    else
      match GetConfigById(local, event.configId.value)
      case Some(c) => Some(SheetUrl(c.spreadsheetId))
      case None => if remote.Some? then Some(SheetUrl(remote.value.spreadsheetId)) else None
  }

  /** The link names the spreadsheet of the configuration that supplied
      it, and a local configuration wins over any remote one. */
  lemma LocalLinkWins(event: DeliveryEvent, local: Stored, remote: Option<SheetsConfig>, c: SheetsConfig)
    requires Truthy(event.configId) && GetConfigById(local, event.configId.value) == Some(c)
    ensures GoogleSheetsUrl(event, local, remote) == GoogleSheetsUrl(event, local, None)
    ensures SpreadsheetIdOf(GoogleSheetsUrl(event, local, remote).value) == Some(c.spreadsheetId)
  {
    SheetUrlRoundTrip(c.spreadsheetId);
  }
}
