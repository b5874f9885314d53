/** The write-back direction of `updateWithConfig`: which sheet row an
    edited event lives on, the date turned back to `DD.MM.YYYY`, and the
    eight single-cell ranges of the batch update. The HTTP request and its
    error handling are not part of this model; the events a fallback lookup
    re-reads are a parameter. */
module WriteBack {
  import opened Base
  import opened Strings
  import opened Types
  import opened ItemCount
  import opened SheetRows

  // ---------------------------------------------------------------------
  // Row number from the event id
  // ---------------------------------------------------------------------

  /** The length of the longest run of digits at the end of `s`. */
  function DigitSuffixLength(s: string): (k: nat)
    ensures k <= |s|
    ensures AllDigits(s[|s| - k..])
    ensures k < |s| ==> !IsDigit(s[|s| - k - 1])
    decreases |s|
  {
    if s != [] && IsDigit(s[|s| - 1]) then
      var k := DigitSuffixLength(s[..|s| - 1]);
      DigitSuffixGrows(s, k);
      k + 1
    else 0
  }

  /** A digit after a digit run ending the rest of `s` lengthens the run. */
  lemma DigitSuffixGrows(s: string, k: nat)
    requires k < |s| && IsDigit(s[|s| - 1])
    requires AllDigits(s[..|s| - 1][|s| - 1 - k..])
    ensures AllDigits(s[|s| - (k + 1)..])
  {
    var run := s[..|s| - 1][|s| - 1 - k..];
    var longer := s[|s| - (k + 1)..];
    forall i | 0 <= i < |longer|
      ensures IsDigit(longer[i])
    {
      if i < k {
        assert longer[i] == run[i];
      }
    }
  }

  const RowMarker: string := "delivery-"

  /** `id.match(/delivery-(\d+)$/)`: a non-empty run of digits ending the
      id, right after "delivery-". Since '-' is no digit, the captured run
      is the whole digit suffix; the sheet row is its value plus 2 (one for
      the header row, one for counting from 1). */
  function RowFromId(id: string): (r: Option<int>)
    ensures r.Some? <==> 0 < DigitSuffixLength(id) && EndsWith(id[..|id| - DigitSuffixLength(id)], RowMarker)
    ensures r.Some? ==> r.value >= 2
  {
    var k := DigitSuffixLength(id);
    if 0 < k && EndsWith(id[..|id| - k], RowMarker) then Some(DigitsValue(id[|id| - k..]) + 2)
    else None
  }

  /** Digits after a non-digit form exactly the digit suffix. */
  lemma DigitSuffixAfter(p: string, d: string)
    requires AllDigits(d)
    requires p != [] && !IsDigit(p[|p| - 1])
    ensures DigitSuffixLength(p + d) == |d|
    decreases |d|
  {
    if d == [] {
      assert p + d == p;
    } else {
      var n := |d| - 1;
      assert (p + d)[..|p + d| - 1] == p + d[..n];
      DigitSuffixAfter(p, d[..n]);
    }
  }

  /** Every id `transformSheetsData` assigns leads back to its row: the
      event of post-header row `i` is written to sheet row `i + 2`,
      whatever the configuration's name. */
  lemma RowFromEventId(prefix: string, i: nat)
    ensures RowFromId(EventId(prefix, i)) == Some(i + 2)
  {
    var p := prefix + "-" + RowMarker;
    var d := NatToString(i);
    EventIdParts(prefix, d);
    DigitSuffixAfter(p, d);
    SplitAtSuffix(p, d);
    EndsWithItself(prefix + "-", RowMarker);
    NatToStringValue(i);
  }

  lemma EventIdParts(prefix: string, d: string)
    ensures prefix + "-delivery-" + d == (prefix + "-" + RowMarker) + d
  {
    assert "-delivery-" == "-" + RowMarker;
    Associative(prefix, "-", RowMarker);
  }

  lemma SplitAtSuffix(p: string, d: string)
    ensures (p + d)[..|p + d| - |d|] == p && (p + d)[|p + d| - |d|..] == d
  {
  }

  lemma EndsWithItself(x: string, m: string)
    ensures EndsWith(x + m, m)
  {
    assert (x + m)[|x + m| - |m|..] == m;
  }

  /** An id with no trailing digits (such as a CSV event's timestamp id with
      a non-digit tail) does not match, and the row comes from the lookup. */
  lemma NoDigitsNoMatch(id: string)
    requires id == [] || !IsDigit(id[|id| - 1])
    ensures RowFromId(id).None?
  {
  }

  /** `findIndex(e => e.id === id)`, with -1 for no match. */
  function FindEvent(events: seq<DeliveryEvent>, id: string): (k: int)
    ensures -1 <= k < |events|
    ensures k == -1 <==> forall j :: 0 <= j < |events| ==> events[j].id != id
    ensures k >= 0 ==> events[k].id == id && forall j :: 0 <= j < k ==> events[j].id != id
  {
    if events == [] then -1
    else if events[0].id == id then 0
    else
      var k := FindEvent(events[1..], id);
      if k == -1 then
        assert forall j :: 1 <= j < |events| ==> events[j].id == events[1..][j - 1].id;
        -1
      else k + 1
  }

  /** The sheet row to write: from the id when it has the row-position
      form, otherwise the position of the event with the same id in the
      re-read `fetched` list plus 2; no such event is the "event not found"
      error. */
  function TargetRow(id: string, fetched: seq<DeliveryEvent>): (r: Option<int>)
    ensures RowFromId(id).Some? ==> r == RowFromId(id)
    ensures RowFromId(id).None? ==> (
      r.None? <==> forall j :: 0 <= j < |fetched| ==> fetched[j].id != id)
    ensures RowFromId(id).None? && r.Some? ==>
      2 <= r.value < |fetched| + 2 && fetched[r.value - 2].id == id
    ensures r.Some? ==> r.value >= 2
  {
    match RowFromId(id)
    case Some(row) => Some(row)
    case None =>
      var k := FindEvent(fetched, id);
      if k == -1 then None else Some(k + 2)
  }

  /** For events read by `transformSheetsData` the fallback lookup is never
      needed: the row follows from the id alone. */
  lemma TransformedNeedsNoLookup(rows: seq<Row>, config: Option<SheetsConfig>, k: nat,
                                 fetched: seq<DeliveryEvent>)
    requires k < |TransformSheetsData(rows, config)|
    ensures var e := TransformSheetsData(rows, config)[k];
      TargetRow(e.id, fetched) == Some(TransformSources(rows, config)[k] + 2)
  {
    TransformEvents(rows, config);
    var i := TransformSources(rows, config)[k];
    assert RowEvent(rows[i], i, config).Some?;
    RowFromEventId(IdPrefix(config), i);
  }

  // ---------------------------------------------------------------------
  // Date back to the sheet's format
  // ---------------------------------------------------------------------

  /** The export rewrite: a non-empty date with a '-' is split as
      year-month-day and written day.month.year; a missing piece reads
      "undefined". Anything else is written as it is. */
  function ExportDate(date: string): (r: string)
    ensures date == "" || '-' !in date ==> r == date
  {
    if date != "" && '-' in date then
      var parts := Split(date, '-');
      Part(parts, 2) + "." + Part(parts, 1) + "." + Part(parts, 0)
    else date
  }

  /** `YYYY-MM-DD` with '-'-free pieces becomes `DD.MM.YYYY`. */
  lemma ExportDateOfParts(y: string, m: string, d: string)
    requires '-' !in y && '-' !in m && '-' !in d
    ensures ExportDate(y + "-" + m + "-" + d) == d + "." + m + "." + y
  {
    var s := y + "-" + m + "-" + d;
    assert s == y + ['-'] + m + ['-'] + d;
    Split3(y, m, d, '-');
    assert s[|y|] == '-';
  }

  /** Padding adds only '0's. */
  lemma PadStart2Keeps(s: string, c: char)
    requires c != '0' && c !in s
    ensures c !in PadStart2(s)
  {
    if |s| < 2 {
      var z := Repeat('0', 2 - |s|);
      assert PadStart2(s) == z + s;
      assert c !in z;
    }
  }

  /** Importing a `D.M.YYYY` date and exporting it again gives the day and
      month padded to two digits: the import is undone exactly when they
      were already two characters long. */
  lemma ExportAfterImport(d: string, m: string, y: string)
    requires '.' !in d && '.' !in m && '.' !in y
    requires '-' !in d && '-' !in m && '-' !in y
    ensures ExportDate(ImportDate(d + "." + m + "." + y)) == PadStart2(d) + "." + PadStart2(m) + "." + y
    ensures |d| == 2 && |m| == 2 ==> ExportDate(ImportDate(d + "." + m + "." + y)) == d + "." + m + "." + y
  {
    ImportDateOfParts(d, m, y);
    PadStart2Keeps(m, '-');
    PadStart2Keeps(d, '-');
    ExportDateOfParts(y, PadStart2(m), PadStart2(d));
  }

  /** Exporting `YYYY-MM-DD` and importing the result gives it back. */
  lemma ImportAfterExport(y: string, m: string, d: string)
    requires '.' !in d && '.' !in m && '.' !in y
    requires '-' !in d && '-' !in m && '-' !in y
    requires |m| == 2 && |d| == 2
    ensures ImportDate(ExportDate(y + "-" + m + "-" + d)) == y + "-" + m + "-" + d
  {
    ExportDateOfParts(y, m, d);
    ImportDateOfParts(d, m, y);
  }

  // ---------------------------------------------------------------------
  // The batch update
  // ---------------------------------------------------------------------

  /** One entry of the batch update: an A1 range and the single value. */
  datatype CellUpdate = CellUpdate(range: string, value: string)

  /** `sheetName ? sheetName + '!' : ''`. */
  function SheetPrefix(sheetName: string): (p: string)
    ensures sheetName == "" ==> p == ""
    ensures sheetName != "" ==> p == sheetName + "!"
  {
    if sheetName != "" then sheetName + "!" else ""
  }

  /** The A1 range of one cell. */
  function CellRange(sheetName: string, column: string, row: int): string {
    SheetPrefix(sheetName) + column + IntToString(row)
  }

  /** The eight mapped columns, in the order the update lists them. */
  function UpdateColumns(m: ColumnMappings): (cols: seq<string>)
    ensures |cols| == 8
  {
    [m.dateColumn, m.marketplaceColumn, m.warehouseColumn, m.departmentColumn,
     m.itemCountColumn, m.realizationNumberColumn, m.deliveryNumberColumn, m.transitWarehouseColumn]
  }

  /** The eight values, in the same order: the exported date, the text
      fields as they are, `String(itemCount || 0)`, and the optional fields
      with a missing one written as the empty string. */
  function UpdateValues(e: DeliveryEvent): (vals: seq<string>)
    ensures |vals| == 8
  {
    [ExportDate(e.date), e.marketplace, e.warehouse, e.department, IntToString(e.itemCount),
     OrEmpty(e.realizationNumber), OrEmpty(e.deliveryNumber), OrEmpty(e.transitWarehouse)]
  }

  /** The update data for an event written to sheet row `row`. */
  function UpdateData(config: SheetsConfig, e: DeliveryEvent, row: int): (data: seq<CellUpdate>)
    ensures |data| == 8
    ensures forall k :: 0 <= k < 8 ==>
      data[k].range == SheetPrefix(config.sheetName) + UpdateColumns(config.columnMappings)[k] + IntToString(row)
    ensures forall k :: 0 <= k < 8 ==> data[k].value == UpdateValues(e)[k]
  {
    var cols := UpdateColumns(config.columnMappings);
    var vals := UpdateValues(e);
    seq(8, k requires 0 <= k < 8 => CellUpdate(CellRange(config.sheetName, cols[k], row), vals[k]))
  }

  /** `updateWithConfig` up to the request: the batch update, or None when
      the row cannot be determined (the source then reports failure). */
  function WriteBack(config: SheetsConfig, e: DeliveryEvent, fetched: seq<DeliveryEvent>): (r: Option<seq<CellUpdate>>)
    ensures r.None? <==> TargetRow(e.id, fetched).None?
    ensures r.Some? ==> r.value == UpdateData(config, e, TargetRow(e.id, fetched).value)
  {
    match TargetRow(e.id, fetched)
    case None => None
    case Some(row) => Some(UpdateData(config, e, row))
  }

  /** With a one-letter column, the row number reads back from the range:
      after the sheet prefix and the letter, the rest parses as the row. */
  lemma RangeRowRoundTrip(sheetName: string, column: char, row: int)
    ensures var r := CellRange(sheetName, [column], row);
      var p := SheetPrefix(sheetName);
      |r| > |p| && r[..|p|] == p && r[|p|] == column && ParseInt(r[|p| + 1..]) == Some(row)
  {
    var p := SheetPrefix(sheetName);
    var digits := IntToString(row);
    assert CellRange(sheetName, [column], row) == p + [column] + digits;
    PartsOfRange(p, column, digits);
    ParseIntOfIntToString(row);
  }

  /** The three parts of a prefix, a letter and a rest can be read back. */
  lemma PartsOfRange(p: string, column: char, rest: string)
    ensures var r := p + [column] + rest;
      |r| > |p| && r[..|p|] == p && r[|p|] == column && r[|p| + 1..] == rest
  {
    var r := p + [column] + rest;
    assert r[..|p|] == p;
    assert r[|p| + 1..] == rest;
  }

  /** The count written back reads back as the same count. */
  lemma ItemCountWriteRead(e: DeliveryEvent)
    ensures ParseItemCount(Some(UpdateValues(e)[4])) == e.itemCount
  {
    var written := UpdateValues(e)[4];
    assert written == IntToString(e.itemCount);
    ItemCountRoundTrip(e.itemCount);
  }

  /** Writing back an event that `transformSheetsData` read addresses its
      own row, with the sheet prefix exactly when the sheet name is set. */
  lemma WriteBackOfTransformed(rows: seq<Row>, config: SheetsConfig, k: nat,
                               fetched: seq<DeliveryEvent>)
    requires k < |TransformSheetsData(rows, Some(config))|
    ensures var e := TransformSheetsData(rows, Some(config))[k];
      var i := TransformSources(rows, Some(config))[k];
      WriteBack(config, e, fetched) == Some(UpdateData(config, e, i + 2))
  {
    TransformedNeedsNoLookup(rows, Some(config), k, fetched);
  }
}
