# Delivery calendar: a Dafny model

This project models the logic of a marketplace-delivery dashboard. The dashboard reads supply records for Wildberries, Ozon and Яндекс.Маркет from Google Sheets, or from a sheet's public CSV export, and shows them on a calendar with per-day counters, filters and statistics. The user can edit a delivery and have it written back to its sheet row. Everything is written as immutable datatypes and pure functions. The browser's storage, the OAuth token entries and the auto-refresh timer are explicit values that each operation takes and returns. The clock (`now`, in epoch milliseconds), fetched grids, fresh ids and remote-store answers are parameters.

Modules follow the source files:

- `Base`, `Strings`, `Types`: optional values, the JavaScript string operations the code relies on, and the records of `src/types/index.ts`.
- `SheetRows`, `ItemCount`, `Gather`: `transformSheetsData` with its column lookup, date conversion and marketplace aliases, and the item-count parser `parseItemCount`.
- `WriteBack`: the addressing part of `updateWithConfig`, which finds the row from the event id, turns the date back into `DD.MM.YYYY` and builds the eight cell ranges.
- `Fetch`: loading one configuration, and merging several.
- `Tokens`, `AutoRefresh`: token expiry and storage, and the refresh scheduler.
- `ConfigStore`: the local configuration store.
- `PublicSheets`: the CSV reader, which loosely follows RFC 4180 section 2 but trims every field.
- `Stats`, `Colors`, `Calendar`, `App`, `ConfigPage`, `FilterPanel`, `DeliveryModal`: the statistics, the colour map and the component rules.

Three behaviours of the code are easy to misread, and the model follows the code in each:

- A configuration found in neither the local nor the remote store yields no events: `fetchDeliveryDataFromConfig` returns `[]` and raises no error (src/utils/googleSheetsService.ts:188-189).
- A marketplace cell is canonicalised to Wildberries when its lower-cased text contains "вб" anywhere, not only when it equals "вб" (src/utils/googleSheetsService.ts:895-897).
- A marketplace is a plain string. A value the alias table does not recognise is stored unchanged (src/utils/googleSheetsService.ts:916), although the `Marketplace` type names only three values (src/types/index.ts:15).

## Model

| member | source | states |
|---|---|---|
| Base.OrEmpty | src/utils/publicSheetsService.ts:132 | `x \|\| ''` on an optional string: absent reads as the empty string, present reads as itself |
| Strings.Lower | src/utils/publicSheetsService.ts:175 | `toLowerCase` keeps the length and maps every character through the ASCII+Cyrillic lower-case table |
| Strings.Upper | src/utils/colorMap.ts:22 | `toUpperCase` keeps the length and maps every character through the upper-case table |
| Strings.LowerIdempotent | src/utils/googleSheetsService.ts:888 | lower-casing an already lower-cased name changes nothing |
| Strings.Trim | src/utils/publicSheetsService.ts:101-108 | `trim()` returns a part of the text that neither starts nor ends with whitespace, and it is empty exactly when the text is blank |
| Strings.TrimStart | src/utils/publicSheetsService.ts:101-108 | the leading-whitespace half of `trim`: a suffix of the input with only whitespace cut off, not starting with whitespace |
| Strings.TrimEnd | src/utils/publicSheetsService.ts:101-108 | the trailing-whitespace half of `trim`: a prefix of the input with only whitespace cut off, not ending with whitespace |
| Strings.TrimIdempotent | src/utils/publicSheetsService.ts:101-108 | trimming twice is trimming once |
| Strings.TrimOfTrimmed | src/utils/publicSheetsService.ts:101-108 | text without whitespace at either end is its own trim |
| Strings.RemoveWhitespace | src/utils/googleSheetsService.ts:749 | `replace(/\s+/g, '')` leaves no whitespace character |
| Strings.RemoveWhitespaceMembers | src/utils/googleSheetsService.ts:749 | the characters left are exactly the input's non-whitespace characters |
| Strings.RemoveWhitespaceConcat | src/utils/googleSheetsService.ts:749 | removing whitespace distributes over concatenation |
| Strings.RemoveWhitespaceTrim | src/utils/googleSheetsService.ts:744-749 | trimming before removing all whitespace makes no difference |
| Strings.IndexOf | src/utils/googleSheetsService.ts:861 | the position of the first separator, or the length when there is none; no separator occurs before it |
| Strings.Split | src/utils/googleSheetsService.ts:861 | `split(c)` yields at least one piece, no piece holds the separator, and a separator-free text is its own single piece |
| Strings.SplitJoin | src/utils/googleSheetsService.ts:616 | splitting a join of separator-free pieces gives back those pieces |
| Strings.Split3 | src/utils/googleSheetsService.ts:861 | `a.b.c` split on `.` is exactly `[a, b, c]` for dot-free parts |
| Strings.PadStart2 | src/utils/googleSheetsService.ts:862 | `padStart(2, '0')` leaves texts of length two or more alone and zero-fills shorter ones to length two |
| Strings.NatToString | src/utils/googleSheetsService.ts:913 | a non-negative number renders as at least one digit with no leading zero |
| Strings.IntToString | src/utils/googleSheetsService.ts:91 | `String(n)` is the digits of `n`, with a minus sign for a negative number |
| Strings.NatToStringValue | src/utils/googleSheetsService.ts:913 | the rendered digits have the number's value |
| Strings.DigitPrefixLength | src/utils/googleSheetsService.ts:47 | the length of the leading run of digits: all digits up to it and a non-digit after it |
| Strings.ParseInt | src/utils/googleSheetsService.ts:47 | `parseInt(s, 10)` is NaN exactly when no digit follows the leading whitespace and optional sign |
| Strings.ParseIntOfDigits | src/utils/googleSheetsService.ts:602 | `parseInt` of a non-empty run of digits is the value of those digits |
| Strings.ParseIntOfIntToString | src/utils/googleSheetsService.ts:47-91 | `parseInt` reads back every integer that `String` renders, so a stored timestamp is read back exactly |
| Strings.KeepDigits | src/utils/publicSheetsService.ts:146 | `replace(/\D/g, '')` leaves only digits, never grows the text, keeps every digit character of the input and no other character, and leaves an all-digit text unchanged |
| Tokens.IsTokenExpired | src/utils/googleSheetsService.ts:29-76 | missing token or timestamp: expired; unreadable or non-positive timestamp: not expired; otherwise expired exactly when more than 3 500 000 ms have passed since the timestamp (the 5-minute branch never changes the answer) |
| Tokens.ExpiryMonotone | src/utils/googleSheetsService.ts:29-76 | once a stored token reads as expired, it stays expired at every later time |
| Tokens.GraceWindow | src/utils/googleSheetsService.ts:56-61 | a token younger than five minutes with a readable timestamp is never expired |
| Tokens.SetAccessToken | src/utils/googleSheetsService.ts:81-108 | an empty token changes nothing; otherwise the token is stored with timestamp `now`, the refresh token is untouched, and the expiry test at `now` says not expired |
| Tokens.SetRefreshToken | src/utils/googleSheetsService.ts:113-125 | an empty token changes nothing; otherwise only the refresh token is replaced |
| Tokens.ClearToken | src/utils/googleSheetsService.ts:128-133 | all three entries are removed and the expiry test then says expired at every time |
| Tokens.ExpiryAfterSet | src/utils/googleSheetsService.ts:29-108 | a token stored at time `issued` reads as expired at `now` exactly when `now - issued > 3 500 000` |
| Tokens.ApplyRefresh | src/utils/googleSheetsService.ts:494-520 | success exactly when an access token came back; failure leaves the store unchanged; success stores a fresh access token and a refresh token only when one was returned |
| AutoRefresh.Stop | src/utils/googleSheetsService.ts:1093-1101 | inactive: no change; active: handle and both times cleared, interval and target kept, and no live interval remains |
| AutoRefresh.TargetOf | src/utils/googleSheetsService.ts:1062-1080 | a tick reloads exactly the given ids when a non-empty id list was given, otherwise every stored configuration |
| AutoRefresh.Start | src/utils/googleSheetsService.ts:1038-1088 | after the implicit stop: active on the new handle, last = now, next = now + interval, and only the new interval is live; its ticks reload exactly the given ids when the list is non-empty, otherwise every stored configuration |
| AutoRefresh.Tick | src/utils/googleSheetsService.ts:1069-1076 | a firing moves last to now and next to now + interval and touches nothing else |
| AutoRefresh.ClampedPercent | src/utils/googleSheetsService.ts:1015 | the clamped `floor(elapsed / total * 100)` lies in 0..100, is the exact floor of the rational share inside the interval, 0 before it and 100 after it |
| AutoRefresh.Progress | src/utils/googleSheetsService.ts:1005-1016 | 0 when inactive or a time is unset; otherwise the remaining share of the interval in percent, rounded up, within 0..100 (100 at the start, 0 once due) |
| AutoRefresh.SecondsUntilNext | src/utils/googleSheetsService.ts:1021-1030 | 0 when inactive or unset; otherwise `ceil(max(0, next - now) / 1000)`, never negative |
| AutoRefresh.FreshStartProgress | src/utils/googleSheetsService.ts:1005-1059 | right after a start the whole interval remains: progress 100 and seconds `ceil(interval / 1000)` |
| AutoRefresh.StartTwiceOneTimer | src/utils/googleSheetsService.ts:1043-1044 | starting twice leaves exactly one live interval, the second one |
| ConfigStore.GetAllConfigs | src/utils/sheetsConfigService.ts:10-20 | the parsed array, or [] when the key is missing or its text does not parse |
| ConfigStore.FindIndex | src/utils/sheetsConfigService.ts:51 | -1 exactly when no entry has the id, otherwise the first index holding it |
| ConfigStore.GetConfigById | src/utils/sheetsConfigService.ts:25-28 | nothing exactly when no stored entry has the id, otherwise the first entry that does |
| ConfigStore.AddConfig | src/utils/sheetsConfigService.ts:33-44 | the draft with the fresh id, appended once at the end of the stored array |
| ConfigStore.AddThenGet | src/utils/sheetsConfigService.ts:25-44 | an added configuration with an unused id is then found by that id |
| ConfigStore.UpdateConfig | src/utils/sheetsConfigService.ts:49-59 | an absent id returns false and writes nothing; otherwise true, the first entry with the id replaced, length and all other entries unchanged |
| ConfigStore.WithoutId | src/utils/sheetsConfigService.ts:66 | the entries with another id, in order: a subsequence that is the whole array exactly when nothing has the id |
| ConfigStore.WithoutIdKeepsOthers | src/utils/sheetsConfigService.ts:66 | every entry with another id survives the filter |
| ConfigStore.DeleteConfig | src/utils/sheetsConfigService.ts:64-72 | an absent id returns false and writes nothing; otherwise true and every entry with the id removed, the rest in order |
| ConfigStore.DeleteThenGet | src/utils/sheetsConfigService.ts:25-72 | after a delete the id is not found, and every other entry is still stored |
| Gather.Collect | src/utils/googleSheetsService.ts:788-928 | the per-row `forEach` that pushes at most one event per row yields no more events than rows |
| Gather.CollectMember | src/utils/googleSheetsService.ts:788-928 | every collected event is what some row read to |
| Gather.CollectNothing | src/utils/googleSheetsService.ts:788-928 | rows that each read to nothing yield no events |
| Gather.Filter | src/utils/googleSheetsService.ts:934-946 | `filter(keep)` keeps only accepted elements, all taken from the input, never more of them |
| Gather.FilterConcat | src/utils/googleSheetsService.ts:934-946 | filtering distributes over concatenation |
| Gather.FilterKeeps | src/utils/sheetsConfigService.ts:66 | every element the test accepts survives the filter |
| Gather.FilterDrops | src/components/Filters/FilterPanel.tsx:192 | an element the test rejects is not kept, so the result is strictly shorter |
| Gather.FilterAll | src/utils/googleSheetsService.ts:934-946 | a test every element passes keeps the whole sequence |
| Gather.FilterIsSubsequence | src/utils/googleSheetsService.ts:934-946 | the filter's output is a subsequence of its input: order kept, nothing added |
| Gather.SourceRows | src/utils/googleSheetsService.ts:788-946 | the positions of the rows that survive reading and the final filter, all valid row positions |
| Gather.CollectSpec | src/utils/googleSheetsService.ts:788-946 | the k-th output event is exactly what the k-th surviving row reads to |
| Gather.SourceRowsIncreasing | src/utils/googleSheetsService.ts:788-946 | surviving rows appear in increasing row order, so output order follows row order |
| Gather.SourceRowsComplete | src/utils/googleSheetsService.ts:788-946 | every row whose event passes the final filter is represented in the output |
| Gather.SourceRowsSound | src/utils/googleSheetsService.ts:788-946 | only rows whose event passes the final filter are represented |
| Gather.SourceRowsExact | src/utils/googleSheetsService.ts:788-946 | a row is represented exactly when its event passes the final filter |
| Fetch.StripHeader | src/utils/googleSheetsService.ts:264-267 | missing or empty `values` gives no rows; otherwise the first (header) row is dropped |
| Fetch.ResolveConfig | src/utils/googleSheetsService.ts:175-190 | the locally stored configuration wins; only without one is the remote configuration used |
| Fetch.FetchFromConfig | src/utils/googleSheetsService.ts:155-284 | a configuration in neither store gives no events; a failed read fails; otherwise the header-stripped grid transformed with that configuration |
| Fetch.FlattenLength | src/utils/googleSheetsService.ts:299 | `flat()` keeps every element: its length is the sum of the parts' lengths |
| Fetch.FlattenConcat | src/utils/googleSheetsService.ts:299 | flattening a concatenation of part lists concatenates the flattened parts |
| Fetch.FlattenMember | src/utils/googleSheetsService.ts:299 | an element is in the flattened list exactly when it is in some part |
| Fetch.Loaded | src/utils/googleSheetsService.ts:296 | the events of each load, one part per load, in load order |
| Fetch.Merge | src/utils/googleSheetsService.ts:296-299 | `Promise.all` then `flat()`: succeeds exactly when every load succeeded; no loads gives no events |
| Fetch.Loads | src/utils/googleSheetsService.ts:295 | one load per configuration id, in id order, each the single-configuration load |
| Fetch.FetchMany | src/utils/googleSheetsService.ts:289-314 | no ids gives no events; otherwise succeeds exactly when every per-id load succeeds |
| Fetch.FetchManyConcat | src/utils/googleSheetsService.ts:289-314 | loading `a + b` gives the events of `a` followed by those of `b`: results follow the order of the ids |
| Fetch.FetchManySingle | src/utils/googleSheetsService.ts:289-314 | one id loads exactly that configuration's events |
| Fetch.MergeSingle | src/utils/googleSheetsService.ts:296-299 | merging a single load's result is that result |
| Fetch.FetchAll | src/utils/googleSheetsService.ts:138-150 | no stored configurations gives no events; otherwise the multi-configuration load over every stored id in store order |
| Fetch.MergeConcat | src/utils/googleSheetsService.ts:296-299 | merging two result lists one after the other equals merging their concatenation |
| Fetch.MergeContents | src/utils/googleSheetsService.ts:299-311 | the merged list has as many events as all loads together (duplicate ids are kept) and holds exactly the events some load returned |
| Fetch.MergeFirst | src/utils/googleSheetsService.ts:296-299 | the first id's events come first, followed by the rest |
| SheetRows.ColToIndex | src/utils/googleSheetsService.ts:784 | `colToIndex(col)` is the first character's code minus that of 'A', and undefined (NaN) for an empty designator |
| SheetRows.CellAt | src/utils/googleSheetsService.ts:844-851 | `row[i]` is the cell exactly when the index lies inside the row, and `undefined` otherwise |
| SheetRows.Cell | src/utils/googleSheetsService.ts:832-851 | the cell a column letter addresses exists exactly when the letter's offset from 'A' falls inside the row |
| SheetRows.ColToIndexOfLetter | src/utils/googleSheetsService.ts:784 | a designator 'A'..'Z' addresses one of the columns 0..25 |
| SheetRows.Part | src/utils/googleSheetsService.ts:861-862 | a destructured piece past the end of the split renders as "undefined" in the template string |
| SheetRows.ImportDate | src/utils/googleSheetsService.ts:859-863 | a date without '.' is kept as it is; a date with '.' splits into at least two pieces |
| SheetRows.SplitHasSeparator | src/utils/googleSheetsService.ts:860-861 | a text that holds the separator splits into at least two pieces |
| SheetRows.ImportDateOfParts | src/utils/googleSheetsService.ts:859-863 | `DD.MM.YYYY` becomes `YYYY-MM-DD` with month and day zero-padded to two characters |
| SheetRows.NormalizeMarketplace | src/utils/googleSheetsService.ts:884-910 | on the lower-cased cell, a Wildberries alias gives 'Wildberries' before an Ozon alias gives 'Ozon' before a Yandex alias gives 'Яндекс.Маркет'; anything else is kept unchanged |
| SheetRows.LowerOfWildberries | src/utils/googleSheetsService.ts:899 | the canonical label 'Wildberries' lower-cases to "wildberries" |
| SheetRows.LowerOfOzon | src/utils/googleSheetsService.ts:902 | the canonical label 'Ozon' lower-cases to "ozon" |
| SheetRows.LowerOfYandexMarket | src/utils/googleSheetsService.ts:905 | the canonical label 'Яндекс.Маркет' lower-cases to "яндекс.маркет" |
| SheetRows.WildberriesIsFixed | src/utils/googleSheetsService.ts:892-899 | 'Wildberries' is canonicalised to itself |
| SheetRows.OzonByLower | src/utils/googleSheetsService.ts:901-902 | any spelling that lower-cases to "ozon" is 'Ozon' |
| SheetRows.OzonIsFixed | src/utils/googleSheetsService.ts:901-902 | 'Ozon' is canonicalised to itself |
| SheetRows.YandexMarketIsFixed | src/utils/googleSheetsService.ts:904-905 | 'Яндекс.Маркет' is canonicalised to itself |
| SheetRows.LabelsAreFixed | src/utils/googleSheetsService.ts:884-910 | every canonical label is canonicalised to itself |
| SheetRows.NormalizeIdempotent | src/utils/googleSheetsService.ts:884-910 | canonicalising twice is canonicalising once |
| SheetRows.NormalizeRange | src/utils/googleSheetsService.ts:884-910 | the result is one of the three labels or the cell itself |
| SheetRows.AliasExamples | src/utils/googleSheetsService.ts:892-903 | "wb", "ВБ", "Wildberries" and "вайлдберриз" are Wildberries; "OZON" and "ozon" are Ozon |
| SheetRows.DefaultRowEvent | src/utils/googleSheetsService.ts:789-825 | without a configuration: an event exactly when cells A and B are non-empty, with id `default-delivery-<index>`, the converted date, the marketplace as given, and the remaining fields from cells C..F |
| SheetRows.MappedRowEvent | src/utils/googleSheetsService.ts:827-924 | with a configuration: an event exactly when the mapped date and marketplace cells are non-empty, with id `<name>-delivery-<index>`, the converted date, the canonical marketplace, every mapped field (absent cells as "") and the configuration's id |
| SheetRows.RowEvent | src/utils/googleSheetsService.ts:913 | the id of every row's event records the row's post-header position after the configuration name (or "default") |
| SheetRows.TransformSheetsData | src/utils/googleSheetsService.ts:775-949 | no rows gives no events; at most one event per row; no output event has a blank marketplace |
| SheetRows.TransformSources | src/utils/googleSheetsService.ts:788-946 | one valid source row per output event |
| SheetRows.TransformEvents | src/utils/googleSheetsService.ts:788-946 | the k-th output event is the event of the k-th contributing row |
| SheetRows.TransformOrder | src/utils/googleSheetsService.ts:788-946 | output order follows row order |
| SheetRows.TransformRows | src/utils/googleSheetsService.ts:788-946 | a row contributes exactly when it yields an event and that event's marketplace is not blank after trimming |
| SheetRows.NatToStringInjective | src/utils/googleSheetsService.ts:913 | different row positions render differently |
| SheetRows.EventIdInjective | src/utils/googleSheetsService.ts:913 | under one prefix, equal ids mean equal row positions |
| SheetRows.TransformIdsDistinct | src/utils/googleSheetsService.ts:913 | the ids produced by one call are pairwise distinct |
| SheetRows.IncompleteRowSkipped | src/utils/googleSheetsService.ts:853-856 | a row whose mapped date or marketplace cell is empty or missing produces no event |
| SheetRows.FiveCellEvent | src/utils/googleSheetsService.ts:844-924 | under the A..H mapping a five-cell row gives the event with those five fields and the three absent optional cells as "" |
| SheetRows.OzonRowTransform | src/utils/googleSheetsService.ts:775-949 | a one-row grid `DD.MM.YYYY, OZON, warehouse, department, n` yields exactly one Ozon delivery dated `YYYY-MM-DD` with item count n |
| ItemCount.RoundHalfUp | src/utils/googleSheetsService.ts:762 | `Math.round` of an exact decimal: the integer r with r - 1/2 <= d < r + 1/2, so halves go towards +Infinity |
| ItemCount.RoundUnique | src/utils/googleSheetsService.ts:762 | at most one integer is the round of a decimal |
| ItemCount.RemoveChar | src/utils/googleSheetsService.ts:754 | `replace(/,/g, '')` removes every comma and keeps every other character |
| ItemCount.ReplaceFirst | src/utils/googleSheetsService.ts:757 | `replace(',', '.')` with a string pattern rewrites only the first comma and leaves the rest of the text, and its length, alone |
| ItemCount.NormalizeSeparators | src/utils/googleSheetsService.ts:751-758 | with both ',' and '.' every comma is dropped; with only ',' a comma becomes the decimal point; without ',' the text is kept |
| ItemCount.DecimalPrefix | src/utils/googleSheetsService.ts:761 | `parseFloat` on the decimal forms: NaN exactly when no digit occurs before the optional point or right after it |
| ItemCount.ParseItemCount | src/utils/googleSheetsService.ts:740-770 | 0 for a missing, empty or blank cell and when no number is readable; otherwise the half-up round of the decimal read from the whitespace-free, separator-normalised text |
| ItemCount.DecimalPrefixOfIntText | src/utils/googleSheetsService.ts:761 | a rendered integer, sign included, reads as that exact integer |
| ItemCount.ItemCountRoundTrip | src/utils/googleSheetsService.ts:740-770 | the cell `String(n)` is read back as n |
| ItemCount.ParseItemCountByRemoved | src/utils/googleSheetsService.ts:744-749 | the count depends only on the text with all whitespace removed, so the preceding trim is redundant |
| ItemCount.SpacesIgnored | src/utils/googleSheetsService.ts:749 | a whitespace character anywhere in the cell never changes the count ("1 000" reads as "1000") |
| ItemCount.ParseItemCountOfClean | src/utils/googleSheetsService.ts:749-763 | a whitespace-free cell is read from its own text |
| ItemCount.ExamplePlain | src/utils/googleSheetsService.ts:737-738 | "250" reads as 250 |
| ItemCount.ExampleDecimalComma | src/utils/googleSheetsService.ts:737-738 | "1 234,50" reads as 1235 |
| ItemCount.ExampleThousandsComma | src/utils/googleSheetsService.ts:737-738 | "1,000.00" reads as 1000 |
| ItemCount.ReadSpacedDecimalComma | src/utils/googleSheetsService.ts:749-762 | digits, a space, digits, a decimal comma and digits read as the decimal with the space ignored and the comma as the point |
| ItemCount.ReadDecimalComma | src/utils/googleSheetsService.ts:755-762 | digits, a comma and digits read as the decimal with the comma as the point |
| ItemCount.DecimalCommaText | src/utils/googleSheetsService.ts:755-758 | a lone comma between digit runs becomes the decimal point |
| ItemCount.ReadThousandsComma | src/utils/googleSheetsService.ts:752-762 | digits, a comma, digits, a point and digits read as the decimal with the comma dropped |
| ItemCount.ThousandsCommaText | src/utils/googleSheetsService.ts:752-754 | with a comma and a point present the comma is dropped and the point kept |
| ItemCount.RemoveCharOfParts | src/utils/googleSheetsService.ts:754 | dropping commas from `a,b.c` over digit runs gives `ab.c` |
| ItemCount.RemoveCharConcat | src/utils/googleSheetsService.ts:754 | removing a character distributes over concatenation |
| ItemCount.ReadDecimal | src/utils/googleSheetsService.ts:761 | `parseFloat` of `a.b` over digit runs is the decimal with the digits of a then b and |b| fractional digits |
| WriteBack.DigitSuffixLength | src/utils/googleSheetsService.ts:601 | the length of the run of digits ending the id: all digits, preceded by a non-digit or the start |
| WriteBack.RowFromId | src/utils/googleSheetsService.ts:598-602 | `/delivery-(\d+)$/` matches exactly when a non-empty digit run ends the id right after "delivery-"; the row is its value plus 2, so never above the header |
| WriteBack.DigitSuffixAfter | src/utils/googleSheetsService.ts:601 | digits written after a non-digit are exactly the id's digit suffix |
| WriteBack.RowFromEventId | src/utils/googleSheetsService.ts:598-602 | the id `<name>-delivery-<i>` that the import assigns leads back to sheet row i + 2, whatever the configuration's name |
| WriteBack.NoDigitsNoMatch | src/utils/googleSheetsService.ts:603-611 | an id without trailing digits does not match, so the row must come from the lookup |
| WriteBack.FindEvent | src/utils/googleSheetsService.ts:606 | `findIndex` by id: -1 exactly when no event has the id, otherwise the first position holding it |
| WriteBack.TargetRow | src/utils/googleSheetsService.ts:598-611 | the row from the id when it matches; otherwise the re-read position of the event plus 2, and "event not found" exactly when no re-read event has the id |
| WriteBack.TransformedNeedsNoLookup | src/utils/googleSheetsService.ts:598-611 | an event the import produced is written to its own source row + 2 without any lookup |
| WriteBack.ExportDate | src/utils/googleSheetsService.ts:614-618 | an empty date or one without '-' is written as it is |
| WriteBack.ExportDateOfParts | src/utils/googleSheetsService.ts:614-618 | `YYYY-MM-DD` is written as `DD.MM.YYYY` |
| WriteBack.PadStart2Keeps | src/utils/googleSheetsService.ts:862 | zero-padding adds no character other than '0' |
| WriteBack.ExportAfterImport | src/utils/googleSheetsService.ts:614-618 | exporting an imported `D.M.YYYY` date gives the day and month zero-padded, so it is the original date exactly when both were two characters long |
| WriteBack.ImportAfterExport | src/utils/googleSheetsService.ts:614-618 | importing an exported `YYYY-MM-DD` date gives it back |
| WriteBack.SheetPrefix | src/utils/googleSheetsService.ts:626 | an empty sheet name adds no prefix; otherwise the prefix is `sheetName!` |
| WriteBack.UpdateColumns | src/utils/googleSheetsService.ts:624-657 | there are exactly eight mapped columns, one per written field; their order is fixed by the definition and matched by `UpdateValues` |
| WriteBack.UpdateValues | src/utils/googleSheetsService.ts:624-657 | there are exactly eight written values, one per mapped column, in the order of `UpdateColumns`; their pairing with the columns is stated by `UpdateData` |
| WriteBack.UpdateData | src/utils/googleSheetsService.ts:624-657 | eight single-cell updates, each addressing the same row in its mapped column with the sheet prefix, each carrying the matching value |
| WriteBack.WriteBack | src/utils/googleSheetsService.ts:588-657 | no update exactly when the row cannot be determined; otherwise the eight updates for that row |
| WriteBack.RangeRowRoundTrip | src/utils/googleSheetsService.ts:624-657 | a range with a one-letter column splits back into the sheet prefix, the letter and the row number |
| WriteBack.ItemCountWriteRead | src/utils/googleSheetsService.ts:645 | the written count reads back as the same count when the sheet is imported again |
| WriteBack.WriteBackOfTransformed | src/utils/googleSheetsService.ts:588-657 | writing back an imported event addresses the row it was read from |
| PublicSheets.ScanRest | src/utils/publicSheetsService.ts:87-109 | the character loop of `parseCSVLine` from a given state always pushes at least one more field |
| PublicSheets.ScanFixed | src/utils/publicSheetsService.ts:101-108 | with an idempotent field finisher every pushed field is a fixed point of it |
| PublicSheets.ParseCSVLine | src/utils/publicSheetsService.ts:82-110 | the fields of a line: never none, and every field trimmed |
| PublicSheets.ScanCount | src/utils/publicSheetsService.ts:87-109 | the loop pushes one field more than the commas it meets outside quotes, a doubled quote inside quotes not changing the mode |
| PublicSheets.FieldCount | src/utils/publicSheetsService.ts:82-110 | a line has exactly one field more than separating commas |
| PublicSheets.PlainRun | src/utils/publicSheetsService.ts:103-105 | characters other than quotes and commas, outside quotes, are appended to the current field unchanged |
| PublicSheets.PlainJoin | src/utils/publicSheetsService.ts:87-109 | a comma join of quote-free, comma-free fields is read back as those fields |
| PublicSheets.PlainRoundTrip | src/utils/publicSheetsService.ts:82-110 | fields without quotes, commas or outer whitespace survive a comma join and `parseCSVLine` |
| PublicSheets.QuotedRun | src/utils/publicSheetsService.ts:90-98 | inside quotes a doubled '"' adds one '"' and consumes both, commas stay in the field, and the closing quote leaves quoted mode |
| PublicSheets.OpenQuote | src/utils/publicSheetsService.ts:95-97 | a quote outside quotes only enters quoted mode and adds nothing |
| PublicSheets.CommaStep | src/utils/publicSheetsService.ts:99-102 | a comma outside quotes pushes the finished field and starts an empty one |
| PublicSheets.QuotedField | src/utils/publicSheetsService.ts:90-105 | a field written in quotes with each '"' doubled adds exactly the original field |
| PublicSheets.QuotedJoin | src/utils/publicSheetsService.ts:87-109 | a comma join of quoted fields is read back as the finished fields, in order |
| PublicSheets.QuotedSingle | src/utils/publicSheetsService.ts:87-109 | one quoted field is read back as that field, finished |
| PublicSheets.QuotedThenComma | src/utils/publicSheetsService.ts:90-102 | a quoted field followed by a comma pushes that field and starts a new one |
| PublicSheets.QuotedJoinStep | src/utils/publicSheetsService.ts:87-109 | reading the first quoted field and comma then the rest gives all fields in order |
| PublicSheets.QuotedRoundTrip | src/utils/publicSheetsService.ts:82-110 | any fields written in the doubled-quote style of RFC 4180 section 2 and joined by commas are read back as themselves, trimmed, with inner commas and quotes kept |
| PublicSheets.FindHeader | src/utils/publicSheetsService.ts:174-176 | -1 exactly when no header's lower case contains the name's lower case, otherwise the first header that does |
| PublicSheets.FindColumnIndex | src/utils/publicSheetsService.ts:172-180 | -1 exactly when no name is found in any header; otherwise the first header matching the first name (in priority order) that any header matches |
| PublicSheets.FirstFoundLater | src/utils/publicSheetsService.ts:173-178 | when the first name is found nowhere, the later names decide |
| PublicSheets.NoneFoundLater | src/utils/publicSheetsService.ts:173-179 | when neither the first name nor any later one is found, no name is found |
| PublicSheets.FirstNameWins | src/utils/publicSheetsService.ts:173-177 | a name found in some header decides, even when a later name matches an earlier header |
| PublicSheets.StripQuotes | src/utils/publicSheetsService.ts:187 | `replace(/['"]/g, '')` keeps exactly the characters other than the two quote marks |
| PublicSheets.DayFirst | src/utils/publicSheetsService.ts:192-196 | a day-first pattern never matches a text without its separator |
| PublicSheets.YearFirst | src/utils/publicSheetsService.ts:198 | the year-first pattern never matches a text without '-' |
| PublicSheets.ParseDate | src/utils/publicSheetsService.ts:185-224 | a text one of the four patterns recognises gives that date; otherwise the host parser's verdict on the cleaned text decides |
| PublicSheets.CleanOfDateText | src/utils/publicSheetsService.ts:187 | a text that starts and ends with a digit and holds no quote mark is unchanged by the cleaning |
| PublicSheets.DayFirstOfText | src/utils/publicSheetsService.ts:192-211 | `D<sep>M<sep>YYYY` with one- or two-digit day and month reads as that day, month and year |
| PublicSheets.RecognizeDayFirst | src/utils/publicSheetsService.ts:190-213 | `D.M.YYYY`, `D/M/YYYY` and `D-M-YYYY` are all read day first |
| PublicSheets.OtherSeparatorAbsent | src/utils/publicSheetsService.ts:190-199 | a digits-and-separator text holds no other separator, so the other day-first patterns fail |
| PublicSheets.YearFirstOfText | src/utils/publicSheetsService.ts:196-208 | `YYYY-M-D` fails the day-first '-' pattern and is read year first |
| PublicSheets.CleanOfDigitsText | src/utils/publicSheetsService.ts:187 | a date text of digit runs and a separator has nothing to clean |
| PublicSheets.RecognizeYearFirst | src/utils/publicSheetsService.ts:190-213 | `YYYY-M-D` is read year first, although the day-first '-' pattern is tried before it |
| PublicSheets.CountOfCell | src/utils/publicSheetsService.ts:146 | the count is the value of the cell's digits with everything else removed, 0 when none; never negative |
| PublicSheets.TrimmedCell | src/utils/publicSheetsService.ts:132 | `values[i]?.trim()` is present exactly when i lies inside the row, and is the trimmed cell |
| PublicSheets.ParseRowToEvent | src/utils/publicSheetsService.ts:115-167 | no date header gives nothing; an event needs a non-empty date cell that parses; it is a Wildberries delivery at the sheet's name, and the converse holds: a truthy date cell that parses always gives an event. With a count header the count is the value of that cell's digits (0 when none); without one it is 1. With a department header the department is the trimmed cell, or 'Общий' when that is empty or missing; without one it is 'Общий'. The department is never empty and the title is `department (count)` |
| PublicSheets.ReadLine | src/utils/publicSheetsService.ts:62-70 | a blank line gives nothing; an event needs a date header and is a Wildberries delivery at the sheet's name |
| PublicSheets.ParseCSVToEvents | src/utils/publicSheetsService.ts:48-77 | fewer than two lines gives no events, and there are never more events than lines |
| PublicSheets.CsvEventsFromLines | src/utils/publicSheetsService.ts:48-77 | every event is the row reading of some non-blank line after the header, read with that line's trimmed fields and its 1-based line number, and is a Wildberries delivery at the sheet's name |
| PublicSheets.NoDateColumnNoEvents | src/utils/publicSheetsService.ts:123-130 | without a date header no line yields an event |
| PublicSheets.NothingReadWithoutDate | src/utils/publicSheetsService.ts:61-74 | without a date header none of the lines is read |
| Stats.CalculateDeliveryStats | src/utils/statsCalculator.ts:3-32 | the delivery total is the number of events, and an empty list gives zero totals and two empty breakdowns |
| Stats.Bump | src/utils/statsCalculator.ts:12-16 | counting one more occurrence of a marketplace adds that key, sets it to its previous count plus one (or to 1 when it was absent or 0), and leaves every other key's count as it was |
| Stats.TotalItems | src/utils/statsCalculator.ts:10 | the item total built up in event order equals the sum of all item counts read from the front |
| Stats.ItemTotalIsSum | src/utils/statsCalculator.ts:10 | a running total taken back to front and a sum taken front to back agree on every list |
| Stats.BreakdownCounts | src/utils/statsCalculator.ts:12-24 | a key is present in a breakdown exactly when at least one event has it, and then its value is the number of such events |
| Stats.BreakdownSum | src/utils/statsCalculator.ts:12-24 | every count in a breakdown is at least one, and the counts add up to the number of events that have a key |
| Stats.CountKeyPositive | src/utils/statsCalculator.ts:12-24 | the reference count of a key is positive exactly when some event carries that key |
| Stats.MarketplaceBreakdown | src/utils/statsCalculator.ts:12-16 | a marketplace is listed exactly when some event has it, its count is its number of events, and the counts add up to the delivery total |
| Stats.DepartmentBreakdown | src/utils/statsCalculator.ts:18-24 | a department is listed exactly when it is non-empty and some event has it, with its number of events, and the counts add up to at most the delivery total |
| Stats.SumValuesRemove | src/utils/statsCalculator.ts:12-24 | the sum of a map's counts is any one key's count plus the sum of the rest, whichever key is taken out |
| Stats.SumValuesBump | src/utils/statsCalculator.ts:12-16 | counting one more occurrence raises the sum of the counts by one |
| Stats.ItemBreakdownSums | src/components/Calendar/DeliveryCalendar.tsx:42-55 | a key is present in an item breakdown exactly when some event has it, and then its value is the items of those events |
| Stats.ItemBreakdownTotal | src/components/Calendar/DeliveryCalendar.tsx:42-55 | the item totals of a breakdown add up to the items of the events that have a key |
| Colors.MarketplaceColor | src/utils/colorMap.ts:3-16 | each brand colour is chosen exactly when the lower-cased name is that brand's name, and every other name gets the neutral grey |
| Colors.LabelColors | src/utils/colorMap.ts:3-16 | the canonical Wildberries, Ozon and Яндекс.Маркет labels get their brand colours whatever their capitalisation in the label |
| Colors.ExactMatchOnly | src/utils/colorMap.ts:6-14 | a name that only starts with a brand name is not matched and gets the neutral grey |
| Colors.FirstCodeColor | src/utils/colorMap.ts:23-29 | a code's colour is chosen exactly when the name contains that code and none of the codes looked for before it |
| Colors.DepartmentColor | src/utils/colorMap.ts:18-30 | no department gives black; otherwise the colour is that of the first department code the upper-cased name contains, or black when it contains none |
| Colors.EarlierCodeWins | src/utils/colorMap.ts:23-27 | a name containing a code never gets the colour of a code looked for after it |
| Colors.FirstContainedCode | src/utils/colorMap.ts:23-27 | when a name contains some code, there is a first code it contains, and it contains none of the earlier ones |
| Colors.EventClassNames | src/utils/colorMap.ts:32-46 | the event class always begins with the base class |
| Colors.ClassFollowsColor | src/utils/colorMap.ts:3-46 | the event class has a brand suffix exactly when the colour is a brand colour, and two names share a class exactly when they share a colour |
| Calendar.DateKey | src/components/Calendar/DeliveryCalendar.tsx:30 | the day key is the date text before its first 'T', holds no 'T', and is the date itself when there is no time part |
| Calendar.DateKeyOfDateTime | src/components/Calendar/DeliveryCalendar.tsx:30 | appending a 'T' and any time to a day gives back that day as the key |
| Calendar.DeliveriesByDate | src/components/Calendar/DeliveryCalendar.tsx:26-39 | a day is a key exactly when some event falls on it, and the per-day counts add up to the number of events |
| Calendar.ItemsByDate | src/components/Calendar/DeliveryCalendar.tsx:42-55 | the per-day item totals add up to the total item count of the events |
| Calendar.AddItems | src/components/Calendar/DeliveryCalendar.tsx:87-91 | adding a marketplace's items adds that key with its old total (0 when new) plus the items, and leaves other keys alone |
| Calendar.SumValuesAddItems | src/components/Calendar/DeliveryCalendar.tsx:87-91 | adding items to one marketplace raises the sum of the day's totals by exactly those items |
| Calendar.DayMapsAgree | src/components/Calendar/DeliveryCalendar.tsx:26-75 | the per-day and the per-day-per-marketplace delivery maps have the same days, and every per-marketplace count is at least one |
| Calendar.MarketplaceDeliveriesAddUp | src/components/Calendar/DeliveryCalendar.tsx:26-75 | for every day, the per-marketplace delivery counts add up to that day's delivery count |
| Calendar.MarketplaceItemsAddUp | src/components/Calendar/DeliveryCalendar.tsx:42-95 | the two item maps have the same days, and for every day the per-marketplace item totals add up to that day's item total |
| Calendar.CounterColor | src/components/Calendar/DeliveryCalendar.tsx:98-109 | an empty name or a name containing none of the three brands gets #333333; otherwise the first of 'wildberries', 'ozon', 'яндекс' the lower-cased name contains picks the colour |
| Calendar.CounterColorOfLabels | src/components/Calendar/DeliveryCalendar.tsx:98-109 | on the three canonical marketplace labels the calendar's counter colour agrees with the shared colour map |
| Calendar.FilterCalendarEvents | src/components/Calendar/DeliveryCalendar.tsx:121-166 | every kept event is present and comes from the input |
| Calendar.CalendarFilterSpec | src/components/Calendar/DeliveryCalendar.tsx:121-166 | the filter keeps, in input order, exactly the present events that pass the marketplace, warehouse and department tests |
| Calendar.NoFiltersKeepsPresent | src/components/Calendar/DeliveryCalendar.tsx:121-127 | with no filters every present event is kept |
| Calendar.WildberriesFiltersAgree | src/components/Calendar/DeliveryCalendar.tsx:135-151 | any two Wildberries spellings used as the filter keep exactly the same events |
| Calendar.WildberriesLabelIsFilter | src/components/Calendar/DeliveryCalendar.tsx:135-139 | the canonical Wildberries label selects the Wildberries branch of the filter |
| Calendar.Rank | src/components/Calendar/DeliveryCalendar.tsx:302-308 | a name's place in the counter order is one of four ranks |
| Calendar.CompareIsRankOrder | src/components/Calendar/DeliveryCalendar.tsx:302-308 | the comparator is the comparison of the pair (not Wildberries, not Ozon) of the lower-cased names |
| Calendar.CompareAntisymmetric | src/components/Calendar/DeliveryCalendar.tsx:302-308 | swapping the two names negates the comparator's result |
| Calendar.CompareTransitive | src/components/Calendar/DeliveryCalendar.tsx:302-308 | the comparator's 'not after' relation is transitive, so the sort order is well defined |
| App.Distinct | src/App.tsx:88 | each value of the list appears exactly once, and nothing else appears |
| App.DistinctOfUnique | src/App.tsx:88 | a list with no repeated value is left as it is |
| App.DistinctIdempotent | src/App.tsx:88-96 | taking the distinct values of an option list a second time changes nothing |
| App.Options | src/App.tsx:88-96 | a value is offered exactly when some event has it in that field, and no value is offered twice |
| App.MarketplaceOptions | src/App.tsx:88 | the marketplace dropdown offers each marketplace of the loaded events, once each |
| App.WarehouseOptions | src/App.tsx:91-94 | the warehouse dropdown offers exactly the warehouses of events of the selected marketplace, or of all events when none is selected, once each |
| App.DepartmentOptions | src/App.tsx:96 | the department dropdown offers each department of the loaded events, once each |
| App.AllWarehousesWithoutMarketplace | src/App.tsx:92 | with no marketplace selected, every warehouse of the loaded events is offered |
| App.FilteredEvents | src/App.tsx:99-125 | filtering never adds events |
| App.FilteredEventsSpec | src/App.tsx:99-125 | the filtered events are a subsequence of the loaded events, holding exactly those that pass the marketplace, warehouse, department and (when a bound is set) date tests |
| App.NoFiltersKeepAll | src/App.tsx:99-125 | with no filter set every loaded event is kept |
| App.MarketplaceIsExact | src/App.tsx:100 | the marketplace test is case-sensitive: an event whose marketplace differs from the selected one in any way is dropped |
| App.AppStats | src/App.tsx:127 | the statistics count exactly the filtered events, never more than the loaded ones |
| App.HandleFilterChange | src/App.tsx:238-252 | a marketplace change sets the marketplace and clears the warehouse; any other key changes only itself |
| App.HandleDepartmentChange | src/App.tsx:247-250 | a department change replaces the department list and leaves every other filter unchanged |
| App.MarketplaceChangeClearsWarehouse | src/App.tsx:240-245 | after choosing a marketplace, its events pass the warehouse test whatever warehouse was selected before |
| App.SelectedWarehousesOffered | src/App.tsx:91-94 | after choosing a marketplace, the warehouses of its events are offered |
| App.ToggleAutoRefresh | src/App.tsx:202-215 | each toggle flips whether the refresh runs; starting uses a one-minute interval, a fresh timer, the current time and the active configurations; nothing else in the state changes |
| App.ToggleTwice | src/App.tsx:202-215 | starting and then stopping the refresh from a stopped state ends stopped, with no live timer and the scheduler's invariant kept |
| App.HandleLoginSuccess | src/App.tsx:258-301 | a response with an access token signs in through Google with that token; any other signs in a Firebase user with the response's uid, e-mail (empty when missing) and name, carrying the stored token when there is one; only the sign-in state changes |
| App.HandleLogout | src/App.tsx:308-335 | sign-out stops the refresh, forgets the active configurations and events, signs out, and clears the token store only after a Google sign-in |
| App.LogoutExpiresGoogleToken | src/App.tsx:317-319 | after a Google session is closed, the stored token is expired at every time |
| App.LoginThenLogout | src/App.tsx:258-335 | signing in and then out ends signed out with nothing loaded, and the tokens are cleared exactly when the sign-in was through Google |
| ConfigPage.AllColumnsComplete | src/components/Config/ConfigPage.tsx:149-158 | the form's designator list covers all eight column mappings |
| ConfigPage.CheckColumns | src/components/Config/ConfigPage.tsx:161-168 | the loop adds an error exactly for each checked designator that is not one capital letter, with the missing or the malformed message, and keeps every earlier error |
| ConfigPage.CheckAllColumns | src/components/Config/ConfigPage.tsx:161-168 | over all eight designators, a column has an error exactly when its letter is not one capital letter, and the text-field errors are untouched |
| ConfigPage.TextErrors | src/components/Config/ConfigPage.tsx:145-147 | name, spreadsheet id and sheet name each have an error, with its own message, exactly when empty |
| ConfigPage.ValidateForm | src/components/Config/ConfigPage.tsx:142-172 | the error record holds exactly one entry per failing field: each empty text field, and each designator that is empty (missing) or not a single letter A-Z (malformed) |
| ConfigPage.ValidateAcceptsValid | src/components/Config/ConfigPage.tsx:142-172 | the form is accepted exactly when all three text fields are filled and all eight designators are single capital letters |
| ConfigStore.Ids | src/components/Config/ConfigPage.tsx:109 | the ids of the configurations, one per configuration, in list order |
| ConfigPage.ToggleSelectConfig | src/components/Config/ConfigPage.tsx:93-101 | a selected id is removed, every copy of it, leaving the other ids in order; an unselected id is appended at the end |
| ConfigPage.ToggleTwiceRestores | src/components/Config/ConfigPage.tsx:93-101 | selecting and then deselecting an id gives back the original selection |
| ConfigPage.HandleSelectAll | src/components/Config/ConfigPage.tsx:103-111 | a selection as long as the list is cleared; any other becomes every configuration's id in list order |
| ConfigPage.UniqueCard | src/components/Config/ConfigPage.tsx:103-111 | a list without repeats has as many distinct values as entries |
| ConfigPage.SelectAllMeansAllSelected | src/components/Config/ConfigPage.tsx:103-111 | for a repeat-free selection of existing ids, the length test of select-all holds exactly when every configuration is selected |
| ConfigPage.ResetForm | src/components/Config/ConfigPage.tsx:232-251 | the form becomes empty with sheet 'Лист1' and columns A to H, without errors, closed and not editing; the list and the selection stay |
| ConfigPage.DefaultLetterOk | src/components/Config/ConfigPage.tsx:237-246 | every default designator is a valid column letter |
| ConfigPage.DefaultFormNeeds | src/components/Config/ConfigPage.tsx:232-251 | a freshly reset form is refused for exactly two fields: the name and the spreadsheet id |
| ConfigPage.ReplaceById | src/components/Config/ConfigPage.tsx:191-193 | the edited list has the same length, with every entry of the edited id replaced and every other entry unchanged |
| ConfigPage.HandleSubmit | src/components/Config/ConfigPage.tsx:174-230 | an invalid form only shows its errors; a valid edit replaces the entries of the edited id; a valid addition appends the new configuration and selects it (remotely only when the store returned one); the form is then reset; only a Google sign-in writes the local store, where a valid edit updates the stored entry of the edited id and a valid addition appends the new configuration |
| ConfigPage.LocalSubmitKeepsSync | src/components/Config/ConfigPage.tsx:182-199 | when the page shows what the local store holds, it still does after a valid submit |
| ConfigPage.EditMatchesStore | src/components/Config/ConfigPage.tsx:186-193 | with unique ids, the store's update of the first matching entry and the page's replacement of every matching entry give the same list |
| ConfigPage.UniqueAt | src/components/Config/ConfigPage.tsx:186-193 | in a repeat-free list, entries at two different positions differ |
| ConfigPage.HandleDelete | src/components/Config/ConfigPage.tsx:264-290 | an unconfirmed delete changes nothing; a confirmed one that the store reports done removes the id from the list and the selection, and a refused one changes neither |
| ConfigPage.LocalDeleteKeepsSync | src/components/Config/ConfigPage.tsx:271-282 | when the page shows what the local store holds, it still does after a delete |
| FilterPanel.ToggleOption | src/components/Filters/FilterPanel.tsx:190-200 | a selected option is removed from the list, which is reported as no selection exactly when every entry was that option; an unselected option is appended at the end; a reported list is never empty |
| FilterPanel.KeptUnlessAll | src/components/Filters/FilterPanel.tsx:193-194 | dropping an option empties the list exactly when every entry was that option |
| FilterPanel.ToggleTwice | src/components/Filters/FilterPanel.tsx:190-200 | toggling an absent option on and off gives back the list, or no selection when the list was empty |
| FilterPanel.ListboxChange | src/components/Filters/FilterPanel.tsx:220 | the multi-select reports no selection exactly for an empty list, and the list itself otherwise |
| FilterPanel.DateInput | src/components/Filters/FilterPanel.tsx:86 | an emptied date input reports no date, any other text reports itself |
| FilterPanel.Apply | src/components/Filters/FilterPanel.tsx:86-356 | a department change replaces only the department list; any other change is the dashboard's filter-change handler |
| FilterPanel.ControlsKeepDepartmentsNonEmpty | src/components/Filters/FilterPanel.tsx:190-220 | no control ever stores an empty department list: it stays a non-empty list or none |
| FilterPanel.ClearedDatesNoRange | src/components/Filters/FilterPanel.tsx:86-114 | emptying both date inputs, or pressing both date resets, leaves no date range |
| FilterPanel.ResetDepartmentsPassesAll | src/components/Filters/FilterPanel.tsx:208-215 | after the department reset, an event that passed with its own department selected passes whatever its department |
| Types.WithId | src/utils/sheetsConfigService.ts:34-37 | the stored configuration is the draft's fields, owner included, under the given id |
| DeliveryModal.SameValuesSameEvent | src/components/Modal/DeliveryModal.tsx:103 | an event is determined by its values in the eleven fields an input can name |
| DeliveryModal.Open | src/components/Modal/DeliveryModal.tsx:19-25 | the edited copy starts as the event itself, with a valid count and not in edit mode |
| DeliveryModal.SetField | src/components/Modal/DeliveryModal.tsx:109-112 | setting one unlocked field gives it the typed text and leaves every other field unchanged |
| DeliveryModal.HandleInputChange | src/components/Modal/DeliveryModal.tsx:103-113 | department and marketplace ignore input; the count takes the integer parse of the text (or is flagged as not a number when the text starts with no digits); any other field takes the text; all other fields stay |
| DeliveryModal.CountInput | src/components/Modal/DeliveryModal.tsx:111 | the count input sets the count to the parsed integer, or flags it as not a number, and changes no other field |
| DeliveryModal.RetypeRestores | src/components/Modal/DeliveryModal.tsx:109-112 | typing a field's old text back after another text restores the edited copy |
| DeliveryModal.InputsKeepLocked | src/components/Modal/DeliveryModal.tsx:103-107 | no run of inputs changes the marketplace, the department or the edit mode |
| DeliveryModal.SaveRecord | src/components/Modal/DeliveryModal.tsx:119-124 | the saved record carries the original's department, marketplace and configuration id, and the edited copy's other fields |
| DeliveryModal.SaveOfUnlockedEdits | src/components/Modal/DeliveryModal.tsx:115-127 | after any inputs, the save submits the original's marketplace and department, and exactly the edited copy when its configuration id was not retyped |
| DeliveryModal.SaveFinished | src/components/Modal/DeliveryModal.tsx:129-142 | a successful save leaves edit mode and a failed one stays in it; the edited copy is kept |
| DeliveryModal.HandleCancel | src/components/Modal/DeliveryModal.tsx:151-159 | cancelling resets the edited copy to the original and leaves edit mode |
| DeliveryModal.CancelUndoesInputs | src/components/Modal/DeliveryModal.tsx:151-159 | cancelling after any run of inputs gives back the freshly opened dialog |
| DeliveryModal.HeaderColor | src/components/Modal/DeliveryModal.tsx:77-90 | no marketplace keeps the previous colour; otherwise Ozon blue exactly when the name contains 'ozon', Wildberries purple when it contains 'wildberries' but not 'ozon', yellow for 'яндекс' or 'yandex' after those, and grey for the rest |
| DeliveryModal.HeaderColorStable | src/components/Modal/DeliveryModal.tsx:27-90 | the header colour never changes while editing, because it follows the locked marketplace |
| DeliveryModal.HeaderMatchesColorMap | src/components/Modal/DeliveryModal.tsx:77-90 | on the three canonical marketplace labels the header colour agrees with the shared colour map |
| DeliveryModal.SheetUrlRoundTrip | src/components/Modal/DeliveryModal.tsx:65 | the spreadsheet id can be read back from the link built for it |
| DeliveryModal.GoogleSheetsUrl | src/components/Modal/DeliveryModal.tsx:59-74 | there is no link without a configuration id; a configuration in the local store gives the link to its spreadsheet; otherwise the remotely loaded one does, else there is none |
| DeliveryModal.LocalLinkWins | src/components/Modal/DeliveryModal.tsx:34-74 | a configuration in the local store wins over any remote one, and the link names its spreadsheet |

## Left out

- HTTP: the Sheets read and batch update, the CSV export fetch, and the token refresh requests are I/O. Their answers are inputs: a fetched grid, a refresh outcome, or the events a write-back fallback re-reads. The retries after a 401 answer recurse without a bound and are not modelled.
- `updateDeliveryData` is not modelled beyond `updateWithConfig`'s addressing. That covers the token check and refresh before the write, the fallback to the first stored configuration when no id is given, and the remote lookup. Likewise the token check before a fetch is not modelled.
- Browser storage and JSON: the stored configuration array is a value. Missing or unparseable text reads as no configurations. Text that parses to something other than an array (such as `{}` or `null`) is not modelled: `getAllConfigs` returns it as is, and the later `.find` or `.push` would throw. The app itself never writes such text.
- The Firebase SDK is not part of this model. Sign-out from Firebase is not modelled. The remote configuration store appears only as the answers it gives (a configuration or none, deleted or not). A remote call that throws is not modelled.
- Timers and concurrency: `setInterval`, overlapping ticks and the header's one-second poll are replaced by explicit scheduler state and a `now` parameter. Interval handles are numbers the caller supplies. A handle of 0 counts as a running timer, since browsers never hand out 0.
- JavaScript `Date`: the dashboard's date-range filter is a `DateWindow` parameter. The calendar's own date-range test (src/components/Calendar/DeliveryCalendar.tsx:169-182) is left out. The dashboard applies the same window before it hands the events to the calendar (src/App.tsx:417-421), so the calendar only ever sees events inside it. The fallback date parse, the `new Date(y, m-1, d)` overflow, the time-zone shift of `toISOString`, and the `Date.now()` id of a CSV event are host parameters.
- The development mock data of the sheets service is not modelled.
- Binary floating point: `parseItemCount` works on exact decimals. The exponent and `Infinity` forms of `parseFloat`, and the rounding of decimals that are not exactly representable, are not modelled. `parseInt` is modelled on unbounded integers; see `Strings.ParseInt` below.
- Unicode case mapping: `toLowerCase` and `toUpperCase` are a table covering ASCII and basic Cyrillic (U+0400 to U+045F). Other characters map to themselves. Text lengths count Unicode code points, while JavaScript counts UTF-16 code units. So `Strings.PadStart2` and `SheetRows.ColToIndex` differ from `padStart` and `charCodeAt` on characters outside the Basic Multilingual Plane.
- DOM and rendering: `updateCounters`, the marketplace CSS class the calendar renders, all JSX and CSS, the statistics panel, the header and the spinner are left out.
- Console logging, alerts, and the catch blocks that only log are left out.
- The configuration-loading effects of the dashboard and the configuration page are left out, because they only copy a store's content into component state. So are the form's field-change handler and `handleEdit`.
- Object keys: maps are keyed by arbitrary strings. The JavaScript quirk of special keys such as `__proto__` is not modelled.
- Strings.ParseInt: returns an exact unbounded integer, while JavaScript's `parseInt` returns a double. Above 2^53 the source rounds to the nearest double, so `parseInt("9007199254740993")` is 9007199254740992. The callers whose values differ at such sizes are `Tokens.IsTokenExpired` (the stored timestamp), `WriteBack.RowFromId` (the row number in an id), `DeliveryModal.CountInput` (the typed count) and `PublicSheets.CountOfCell` (the digits of a count cell).
- DeliveryModal.CountInput: an item-count text with no leading digits gives `NaN` in the source. The model keeps the previous count and raises a `countIsNaN` flag instead of storing a non-number.
- AutoRefresh.ClampedPercent: works on exact rationals, while the source floors an IEEE double. The double `elapsed / total * 100` can land just below a whole number and floor one lower. For example, with total 60000 and elapsed 17400 the source floors 28.999999999999996 to 28, where the model gives 29. The same happens at elapsed 34200 and 34800.
- AutoRefresh.Progress: inherits the exact rationals of `ClampedPercent`. Where the double rounds down, the source shows one percent more time remaining: 72 for total 60000 and elapsed 17400, where the model shows 71.
- AutoRefresh.Progress: when the interval and the elapsed time are both 0, the source divides 0 by 0 and reports `NaN`. The model takes the elapsed share as 0 and reports 100.
- `src/types/index.ts` supplies only types, and `check-env.js` is a build-time environment check; neither has behaviour to model.
