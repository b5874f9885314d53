/** The records the dashboard passes around: delivery events, sheet
    configurations with their column mapping, filter options and the
    sign-in state. Optional TypeScript fields (`x?: string`) are Options. */
module Types {
  import opened Base

  /** The three canonical marketplace labels. A delivery's marketplace is a
      plain string: unrecognised sheet values are stored unchanged. */
  const Wildberries: string := "Wildberries"
  const Ozon: string := "Ozon"
  const YandexMarket: string := "Яндекс.Маркет"

  datatype DeliveryEvent = DeliveryEvent(
    id: string,
    title: string,
    date: string,
    marketplace: string,
    warehouse: string,
    department: string,
    itemCount: int,
    realizationNumber: Option<string>,
    configId: Option<string>,
    deliveryNumber: Option<string>,
    transitWarehouse: Option<string>)

  /** The eight column designators of a sheet configuration, one letter each
      when the configuration form accepted them. */
  datatype ColumnMappings = ColumnMappings(
    dateColumn: string,
    marketplaceColumn: string,
    warehouseColumn: string,
    departmentColumn: string,
    itemCountColumn: string,
    realizationNumberColumn: string,
    deliveryNumberColumn: string,
    transitWarehouseColumn: string)

  datatype SheetsConfig = SheetsConfig(
    id: string,
    name: string,
    spreadsheetId: string,
    sheetName: string,
    userId: Option<string>,
    columnMappings: ColumnMappings)

  /** A configuration before the store has given it an id. */
  datatype ConfigDraft = ConfigDraft(
    name: string,
    spreadsheetId: string,
    sheetName: string,
    userId: Option<string>,
    columnMappings: ColumnMappings)

  function WithId(d: ConfigDraft, id: string): (c: SheetsConfig)
    ensures c.id == id && c.name == d.name && c.spreadsheetId == d.spreadsheetId
    ensures c.sheetName == d.sheetName && c.columnMappings == d.columnMappings
    ensures c.userId == d.userId
  {
    SheetsConfig(id, d.name, d.spreadsheetId, d.sheetName, d.userId, d.columnMappings)
  }

  function DraftOf(c: SheetsConfig): ConfigDraft {
    ConfigDraft(c.name, c.spreadsheetId, c.sheetName, c.userId, c.columnMappings)
  }

  /** The filter bar's state; `None` is "no filter". */
  datatype FilterOptions = FilterOptions(
    marketplace: Option<string>,
    warehouse: Option<string>,
    department: Option<seq<string>>,
    startDate: Option<string>,
    endDate: Option<string>)

  const NoFilters: FilterOptions := FilterOptions(None, None, None, None, None)

  datatype Provider = Firebase | Google

  /** The two identity shapes: a direct OAuth user carries only its access
      token; a federated user carries a uid (and the stored token, if any). */
  datatype User =
    | GoogleUser(accessToken: string)
    | FirebaseUser(uid: string, email: string, displayName: Option<string>, token: Option<string>)

  datatype AuthState = AuthState(isLoggedIn: bool, user: Option<User>, provider: Option<Provider>)

  const LoggedOut: AuthState := AuthState(false, None, None)

  datatype DeliveryStats = DeliveryStats(
    totalDeliveries: int,
    totalItems: int,
    marketplaceBreakdown: map<string, int>,
    departmentBreakdown: map<string, int>)
}
