/** `transformSheetsData`: the column-mapped row parser. Each header-less
    grid row becomes at most one delivery event: the mapped cells are looked
    up by column letter, rows without a date or a marketplace are skipped,
    `DD.MM.YYYY` dates become `YYYY-MM-DD`, marketplace aliases are
    canonicalised, the id records the row position, and events whose
    marketplace is blank are dropped at the end. */
module SheetRows {
  import opened Base
  import opened Strings
  import opened Types
  import opened ItemCount
  import opened Gather

  /** A grid row as the Sheets API returns it: trailing empty cells are
      absent, so a cell past the row's end is `undefined`. */
  type Row = seq<string>

  /** How a missing array element renders inside a template string. */
  const Undefined: string := "undefined"

  // ---------------------------------------------------------------------
  // Cell lookup
  // ---------------------------------------------------------------------

  /** `colToIndex(col)`: the code of the designator's first character minus
      the code of 'A'; an empty designator has no first character (NaN). */
  function ColToIndex(col: string): (r: Option<int>)
    ensures r.None? <==> col == ""
    ensures r.Some? ==> r.value == col[0] as int - 'A' as int
  {
    if col == "" then None else Some(col[0] as int - 'A' as int)
  }

  /** `row[i]`: the cell, or `undefined` outside the row. */
  function CellAt(row: Row, i: int): (c: Option<string>)
    ensures c.Some? <==> 0 <= i < |row|
    ensures c.Some? ==> c.value == row[i]
  {
    if 0 <= i < |row| then Some(row[i]) else None
  }

  /** `row[colToIndex(col)]`. */
  function Cell(row: Row, col: string): (c: Option<string>)
    ensures c.Some? <==> col != "" && 0 <= col[0] as int - 'A' as int < |row|
    ensures c.Some? ==> c.value == row[col[0] as int - 'A' as int]
  {
    match ColToIndex(col)
    case None => None
    case Some(i) => CellAt(row, i)
  }

  /** A one-letter designator 'A'..'Z' addresses columns 0..25. */
  lemma ColToIndexOfLetter(c: char)
    requires 'A' <= c <= 'Z'
    ensures ColToIndex([c]) == Some(c as int - 'A' as int)
    ensures 0 <= ColToIndex([c]).value <= 25
  {
  }

  // ---------------------------------------------------------------------
  // Date and marketplace normalisation
  // ---------------------------------------------------------------------

  /** The `k`-th piece of a destructured split, as a template string shows
      it: "undefined" past the end. */
  function Part(parts: seq<string>, k: nat): (p: string)
    ensures k < |parts| ==> p == parts[k]
    ensures k >= |parts| ==> p == Undefined
  {
    if k < |parts| then parts[k] else Undefined
  }

  /** The import rewrite of the date cell: a text with a '.' is split as
      day.month.year and reassembled as year-month-day, month and day padded
      to two characters; any other text is kept as it is. */
  function ImportDate(date: string): (r: string)
    ensures '.' !in date ==> r == date
    ensures '.' in date ==> |Split(date, '.')| >= 2
  {
    if '.' in date then
      var parts := Split(date, '.');
      SplitHasSeparator(date, '.');
      Part(parts, 2) + "-" + PadStart2(parts[1]) + "-" + PadStart2(parts[0])
    else date
  }

  /** A text with the separator splits into at least two pieces. */
  lemma SplitHasSeparator(s: string, c: char)
    requires c in s
    ensures |Split(s, c)| >= 2
  {
    var k := IndexOf(s, c);
    assert s[..k] + [s[k]] + s[k + 1..] == s;
  }

  /** `DD.MM.YYYY`, with any day, month and year texts free of '.', becomes
      year-month-day with month and day padded to two characters. */
  lemma ImportDateOfParts(d: string, m: string, y: string)
    requires '.' !in d && '.' !in m && '.' !in y
    ensures ImportDate(d + "." + m + "." + y) == y + "-" + PadStart2(m) + "-" + PadStart2(d)
  {
    var s := d + "." + m + "." + y;
    assert s == d + ['.'] + m + ['.'] + y;
    Split3(d, m, y, '.');
    assert s[|d|] == '.';
  }

  /** The Wildberries aliases, matched against the lower-cased cell. */
  predicate IsWildberriesAlias(l: string) {
    Contains(l, "wild") || l == "wb" || l == "вб" || Contains(l, "вайлдберриз") || Contains(l, "вб")
  }

  predicate IsOzonAlias(l: string) {
    Contains(l, "ozon")
  }

  predicate IsYandexAlias(l: string) {
    Contains(l, "яндекс") || Contains(l, "yandex")
  }

  /** Marketplace canonicalisation on the lower-cased cell, Wildberries
      first, then Ozon, then Yandex; anything else is kept unchanged. */
  function NormalizeMarketplace(mp: string): (r: string)
    ensures IsWildberriesAlias(Lower(mp)) ==> r == Wildberries
    ensures !IsWildberriesAlias(Lower(mp)) && IsOzonAlias(Lower(mp)) ==> r == Ozon
    ensures !IsWildberriesAlias(Lower(mp)) && !IsOzonAlias(Lower(mp)) && IsYandexAlias(Lower(mp)) ==>
      r == YandexMarket
    ensures !IsWildberriesAlias(Lower(mp)) && !IsOzonAlias(Lower(mp)) && !IsYandexAlias(Lower(mp)) ==>
      r == mp
  {
    var l := Lower(mp);
    if IsWildberriesAlias(l) then Wildberries
    else if IsOzonAlias(l) then Ozon
    else if IsYandexAlias(l) then YandexMarket
    else mp
  }

  lemma LowerOfWildberries()
    ensures Lower(Wildberries) == "wildberries"
  {
  }

  lemma LowerOfOzon()
    ensures Lower(Ozon) == "ozon"
  {
  }

  lemma LowerOfYandexMarket()
    ensures Lower(YandexMarket) == "яндекс.маркет"
  {
  }

  lemma WildberriesIsFixed()
    ensures NormalizeMarketplace(Wildberries) == Wildberries
  {
    LowerOfWildberries();
    assert MatchesAt("wildberries", "wild", 0);
  }

  /** Every cell whose lower case is exactly "ozon" is Ozon. */
  lemma OzonByLower(mp: string)
    requires Lower(mp) == "ozon"
    ensures NormalizeMarketplace(mp) == Ozon
  {
    NotContains("ozon", "wild", 0);
    NotContains("ozon", "вайлдберриз", 0);
    NotContains("ozon", "вб", 0);
    ContainsSelf("ozon");
  }

  lemma OzonIsFixed()
    ensures NormalizeMarketplace(Ozon) == Ozon
  {
    LowerOfOzon();
    OzonByLower(Ozon);
  }

  lemma YandexMarketIsFixed()
    ensures NormalizeMarketplace(YandexMarket) == YandexMarket
  {
    LowerOfYandexMarket();
    var y := "яндекс.маркет";
    NotContains(y, "wild", 0);
    NotContains(y, "вайлдберриз", 2);
    NotContains(y, "вб", 0);
    NotContains(y, "ozon", 0);
    assert MatchesAt(y, "яндекс", 0);
  }

  /** The canonical labels are classified as themselves. */
  lemma LabelsAreFixed()
    ensures NormalizeMarketplace(Wildberries) == Wildberries
    ensures NormalizeMarketplace(Ozon) == Ozon
    ensures NormalizeMarketplace(YandexMarket) == YandexMarket
  {
    WildberriesIsFixed();
    OzonIsFixed();
    YandexMarketIsFixed();
  }

  /** Canonicalising twice is canonicalising once. */
  lemma NormalizeIdempotent(mp: string)
    ensures NormalizeMarketplace(NormalizeMarketplace(mp)) == NormalizeMarketplace(mp)
  {
    LabelsAreFixed();
  }

  /** The result is a canonical label, or the cell itself when no alias
      matched. */
  lemma NormalizeRange(mp: string)
    ensures var r := NormalizeMarketplace(mp);
      r == Wildberries || r == Ozon || r == YandexMarket || r == mp
  {
  }

  /** The spelled-out aliases: "wb", "ВБ", "Wildberries" and "вайлдберриз"
      are all Wildberries; "OZON" and "ozon" are both Ozon. */
  lemma AliasExamples()
    ensures NormalizeMarketplace("wb") == Wildberries
    ensures NormalizeMarketplace("ВБ") == Wildberries
    ensures NormalizeMarketplace("Wildberries") == Wildberries
    ensures NormalizeMarketplace("вайлдберриз") == Wildberries
    ensures NormalizeMarketplace("OZON") == Ozon
    ensures NormalizeMarketplace("ozon") == Ozon
  {
    assert Lower("wb") == "wb";
    assert Lower("ВБ") == "вб";
    WildberriesIsFixed();
    var v := "вайлдберриз";
    assert Lower(v) == v;
    ContainsSelf(v);
    assert Lower("OZON") == "ozon";
    OzonByLower("OZON");
    assert Lower("ozon") == "ozon";
    OzonByLower("ozon");
  }

  // ---------------------------------------------------------------------
  // Rows to events
  // ---------------------------------------------------------------------

  /** The id of the event read from post-header row `index`. */
  function EventId(prefix: string, index: nat): string {
    prefix + "-delivery-" + NatToString(index)
  }

  /** The id prefix: the configuration's name, or "default" for the fixed
      layout used without a configuration. */
  function IdPrefix(config: Option<SheetsConfig>): string {
    match config
    case None => "default"
    case Some(c) => c.name
  }

  /** The event of one row under the fixed layout A..F (no configuration):
      the marketplace is taken as it is, and there is no delivery number,
      transit warehouse or configuration id. */
  function DefaultRowEvent(row: Row, index: nat): (e: Option<DeliveryEvent>)
    ensures e.Some? <==> Truthy(CellAt(row, 0)) && Truthy(CellAt(row, 1))
    ensures e.Some? ==> (
      && e.value.id == EventId("default", index)
      && e.value.date == ImportDate(row[0])
      && e.value.marketplace == row[1]
      && e.value.title == row[1] + ": " + OrEmpty(CellAt(row, 2))
      && e.value.warehouse == OrEmpty(CellAt(row, 2))
      && e.value.department == OrEmpty(CellAt(row, 3))
      && e.value.itemCount == ParseItemCount(CellAt(row, 4))
      && e.value.realizationNumber == Some(OrEmpty(CellAt(row, 5)))
      && e.value.deliveryNumber.None? && e.value.transitWarehouse.None? && e.value.configId.None?)
  {
    var date := CellAt(row, 0);
    var marketplace := CellAt(row, 1);
    if !Truthy(date) || !Truthy(marketplace) then None
    else
      var warehouse := OrEmpty(CellAt(row, 2));
      Some(DeliveryEvent(
        id := EventId("default", index),
        title := marketplace.value + ": " + warehouse,
        date := ImportDate(date.value),
        marketplace := marketplace.value,
        warehouse := warehouse,
        department := OrEmpty(CellAt(row, 3)),
        itemCount := ParseItemCount(CellAt(row, 4)),
        realizationNumber := Some(OrEmpty(CellAt(row, 5))),
        configId := None,
        deliveryNumber := None,
        transitWarehouse := None))
  }

  /** The event of one row under a configuration's column mapping. */
  function MappedRowEvent(row: Row, index: nat, config: SheetsConfig): (e: Option<DeliveryEvent>)
    ensures var m := config.columnMappings;
      e.Some? <==> Truthy(Cell(row, m.dateColumn)) && Truthy(Cell(row, m.marketplaceColumn))
    ensures e.Some? ==> (
      var m := config.columnMappings;
      var mp := NormalizeMarketplace(Cell(row, m.marketplaceColumn).value);
      && e.value.id == EventId(config.name, index)
      && e.value.date == ImportDate(Cell(row, m.dateColumn).value)
      && e.value.marketplace == mp
      && e.value.title == mp + ": " + OrEmpty(Cell(row, m.warehouseColumn))
      && e.value.warehouse == OrEmpty(Cell(row, m.warehouseColumn))
      && e.value.department == OrEmpty(Cell(row, m.departmentColumn))
      && e.value.itemCount == ParseItemCount(Cell(row, m.itemCountColumn))
      && e.value.realizationNumber == Some(OrEmpty(Cell(row, m.realizationNumberColumn)))
      && e.value.deliveryNumber == Some(OrEmpty(Cell(row, m.deliveryNumberColumn)))
      && e.value.transitWarehouse == Some(OrEmpty(Cell(row, m.transitWarehouseColumn)))
      && e.value.configId == Some(config.id))
  {
    var m := config.columnMappings;
    var date := Cell(row, m.dateColumn);
    var marketplace := Cell(row, m.marketplaceColumn);
    if !Truthy(date) || !Truthy(marketplace) then None
    else
      var normalized := NormalizeMarketplace(marketplace.value);
      var warehouse := OrEmpty(Cell(row, m.warehouseColumn));
      Some(DeliveryEvent(
        id := EventId(config.name, index),
        title := normalized + ": " + warehouse,
        date := ImportDate(date.value),
        marketplace := normalized,
        warehouse := warehouse,
        department := OrEmpty(Cell(row, m.departmentColumn)),
        itemCount := ParseItemCount(Cell(row, m.itemCountColumn)),
        realizationNumber := Some(OrEmpty(Cell(row, m.realizationNumberColumn))),
        configId := Some(config.id),
        deliveryNumber := Some(OrEmpty(Cell(row, m.deliveryNumberColumn))),
        transitWarehouse := Some(OrEmpty(Cell(row, m.transitWarehouseColumn)))))
  }

  function RowEvent(row: Row, index: nat, config: Option<SheetsConfig>): (e: Option<DeliveryEvent>)
    ensures e.Some? ==> e.value.id == EventId(IdPrefix(config), index)
  {
    match config
    case None => DefaultRowEvent(row, index)
    case Some(c) => MappedRowEvent(row, index, c)
  }

  /** How one row is read under `config`. */
  function Reader(config: Option<SheetsConfig>): (Row, nat) -> Option<DeliveryEvent> {
    (row: Row, i: nat) => RowEvent(row, i, config)
  }

  /** The final filter's test: a marketplace that is not blank. */
  predicate HasMarketplace(e: DeliveryEvent) {
    Trim(e.marketplace) != ""
  }

  /** `transformSheetsData(data, config)` on the header-less rows. */
  function TransformSheetsData(rows: seq<Row>, config: Option<SheetsConfig>): (out: seq<DeliveryEvent>)
    ensures rows == [] ==> out == []
    ensures |out| <= |rows|
    ensures forall k :: 0 <= k < |out| ==> HasMarketplace(out[k])
  {
    if rows == [] then [] else Filter(Collect(rows, Reader(config)), HasMarketplace)
  }

  /** The rows of the grid that reach the output, ascending. */
  function TransformSources(rows: seq<Row>, config: Option<SheetsConfig>): (idx: seq<nat>)
    ensures |idx| == |TransformSheetsData(rows, config)|
    ensures forall k :: 0 <= k < |idx| ==> idx[k] < |rows|
  {
    CollectSpec(rows, Reader(config), HasMarketplace);
    SourceRows(rows, Reader(config), HasMarketplace)
  }

  /** The k-th output event is the event of the k-th contributing row. */
  lemma TransformEvents(rows: seq<Row>, config: Option<SheetsConfig>)
    ensures |TransformSheetsData(rows, config)| == |TransformSources(rows, config)|
    ensures forall k :: 0 <= k < |TransformSources(rows, config)| ==>
      RowEvent(rows[TransformSources(rows, config)[k]], TransformSources(rows, config)[k], config) ==
        Some(TransformSheetsData(rows, config)[k])
  {
    CollectSpec(rows, Reader(config), HasMarketplace);
  }

  /** The output follows row order. */
  lemma TransformOrder(rows: seq<Row>, config: Option<SheetsConfig>)
    ensures forall k, l :: 0 <= k < l < |TransformSources(rows, config)| ==>
      TransformSources(rows, config)[k] < TransformSources(rows, config)[l]
  {
    SourceRowsIncreasing(rows, Reader(config), HasMarketplace);
  }

  /** A row contributes exactly when it has a date and a marketplace and the
      marketplace it ends up with is not blank. */
  lemma TransformRows(rows: seq<Row>, config: Option<SheetsConfig>)
    ensures forall i :: 0 <= i < |rows| ==>
      (i in TransformSources(rows, config) <==>
         RowEvent(rows[i], i, config).Some? && HasMarketplace(RowEvent(rows[i], i, config).value))
  {
    forall i | 0 <= i < |rows|
      ensures i in TransformSources(rows, config) <==>
        RowEvent(rows[i], i, config).Some? && HasMarketplace(RowEvent(rows[i], i, config).value)
    {
      SourceRowsExact(rows, Reader(config), HasMarketplace, i);
      assert Reader(config)(rows[i], i) == RowEvent(rows[i], i, config);
    }
  }

  /** `String(n)` is injective, since it reads back as `n`. */
  lemma NatToStringInjective(a: nat, b: nat)
    requires NatToString(a) == NatToString(b)
    ensures a == b
  {
    NatToStringValue(a);
    NatToStringValue(b);
  }

  lemma EventIdInjective(prefix: string, a: nat, b: nat)
    requires EventId(prefix, a) == EventId(prefix, b)
    ensures a == b
  {
    var p := prefix + "-delivery-";
    assert EventId(prefix, a) == p + NatToString(a);
    assert EventId(prefix, b) == p + NatToString(b);
    assert NatToString(a) == EventId(prefix, a)[|p|..];
    assert NatToString(b) == EventId(prefix, b)[|p|..];
    NatToStringInjective(a, b);
  }

  /** Within one call the ids are pairwise distinct. */
  lemma TransformIdsDistinct(rows: seq<Row>, config: Option<SheetsConfig>)
    ensures var out := TransformSheetsData(rows, config);
      forall k, l :: 0 <= k < l < |out| ==> out[k].id != out[l].id
  {
    TransformEvents(rows, config);
    TransformOrder(rows, config);
    var out := TransformSheetsData(rows, config);
    var idx := TransformSources(rows, config);
    forall k, l | 0 <= k < l < |out|
      ensures out[k].id != out[l].id
    {
      assert out[k].id == EventId(IdPrefix(config), idx[k]);
      assert out[l].id == EventId(IdPrefix(config), idx[l]);
      if out[k].id == out[l].id {
        EventIdInjective(IdPrefix(config), idx[k], idx[l]);
      }
    }
  }

  /** A row whose date or marketplace cell is empty or missing produces no
      event. */
  lemma IncompleteRowSkipped(rows: seq<Row>, i: nat, config: SheetsConfig)
    requires i < |rows|
    requires var m := config.columnMappings;
      !Truthy(Cell(rows[i], m.dateColumn)) || !Truthy(Cell(rows[i], m.marketplaceColumn))
    ensures i !in TransformSources(rows, Some(config))
  {
    TransformRows(rows, Some(config));
  }

  // ---------------------------------------------------------------------
  // A worked row
  // ---------------------------------------------------------------------

  /** The mapping a new configuration starts from: date to transit
      warehouse in columns A..H. */
  const DefaultMappings: ColumnMappings := ColumnMappings("A", "B", "C", "D", "E", "F", "G", "H")

  /** The event of a row under the default mapping whose first five cells
      are present and the rest absent. */
  lemma FiveCellEvent(row: Row, index: nat, config: SheetsConfig)
    requires config.columnMappings == DefaultMappings
    requires |row| == 5 && row[0] != "" && row[1] != ""
    ensures var mp := NormalizeMarketplace(row[1]);
      MappedRowEvent(row, index, config) == Some(DeliveryEvent(
        id := EventId(config.name, index), title := mp + ": " + row[2], date := ImportDate(row[0]),
        marketplace := mp, warehouse := row[2], department := row[3],
        itemCount := ParseItemCount(Some(row[4])),
        realizationNumber := Some(""), configId := Some(config.id),
        deliveryNumber := Some(""), transitWarehouse := Some("")))
  {
  }

  /** The event a five-cell row `DD.MM.YYYY | Ozon in any case | warehouse |
      department | n` yields under the default mapping. */
  function OzonEvent(config: SheetsConfig, d: string, m: string, y: string,
                     warehouse: string, department: string, n: int): DeliveryEvent
  {
    DeliveryEvent(
      id := EventId(config.name, 0), title := Ozon + ": " + warehouse,
      date := y + "-" + PadStart2(m) + "-" + PadStart2(d),
      marketplace := Ozon, warehouse := warehouse, department := department, itemCount := n,
      realizationNumber := Some(""), configId := Some(config.id),
      deliveryNumber := Some(""), transitWarehouse := Some(""))
  }

  /** A one-row grid such as `01.06.2024 | OZON | Москва | Электроника | 250`
      read with the default mapping gives exactly one Ozon delivery: the
      date turned to `2024-06-01`, the count read back as the number, and
      the absent optional cells present as empty strings. */
  lemma OzonRowTransform(config: SheetsConfig, d: string, m: string, y: string, mp: string,
                         warehouse: string, department: string, n: int)
    requires config.columnMappings == DefaultMappings
    requires '.' !in d && '.' !in m && '.' !in y
    requires Lower(mp) == "ozon"
    ensures var row := [d + "." + m + "." + y, mp, warehouse, department, IntToString(n)];
      TransformSheetsData([row], Some(config)) == [OzonEvent(config, d, m, y, warehouse, department, n)]
  {
    var row := [d + "." + m + "." + y, mp, warehouse, department, IntToString(n)];
    var e := OzonEvent(config, d, m, y, warehouse, department, n);
    FiveCellEvent(row, 0, config);
    ImportDateOfParts(d, m, y);
    OzonByLower(mp);
    ItemCountRoundTrip(n);
    assert RowEvent(row, 0, Some(config)) == Some(e);
    var rows := [row];
    assert rows[..0] == [];
    assert Collect(rows, Reader(Some(config))) == [e];
    assert Trim(Ozon) != "" by {
      assert !AllWhitespace(Ozon) by { assert !IsWhitespace(Ozon[0]); }
    }
    assert HasMarketplace(e);
  }

  /** "OZON" is an upper-case spelling of "ozon". */
  lemma LowerOfOZON()
    ensures Lower("OZON") == "ozon"
  {
  }
}
