/** The public-sheet reader: the CSV export of a sheet is split into lines,
    the first line gives the headers, and each further non-blank line is
    split into trimmed fields and turned into a Wildberries delivery. The
    HTTP fetch is not modelled; the CSV text is the input. The clock read
    for the event id, the host's free-form date parser and the conversion
    of a date to its ISO day are parameters. */
module PublicSheets {
  import opened Base
  import opened Strings
  import opened Types
  import opened Gather
  import SheetRows

  // ---------------------------------------------------------------------
  // `parseCSVLine`
  // ---------------------------------------------------------------------

  /** The splitter's state: the fields pushed so far, the field being
      built, and whether the scan is inside quotes. */
  datatype Scan = Scan(fields: seq<string>, current: string, inQuotes: bool)

  const Start: Scan := Scan([], "", false)

  /** The scan of the rest `s` of the line, where `finish` is what is done
      to a field when it is pushed (trimming, in `parseCSVLine`). A '"'
      inside quotes followed by another '"' adds one '"' and consumes both;
      any other '"' flips the quote mode and adds nothing; a ',' outside
      quotes ends the field; every other character is added. At the end of
      the line the last field is pushed. */
  function ScanRest(s: string, st: Scan, finish: string -> string): (fields: seq<string>)
    ensures |fields| > |st.fields|
    decreases |s|
  {
    if s == [] then st.fields + [finish(st.current)]
    else if s[0] == '"' then
      if st.inQuotes && |s| > 1 && s[1] == '"' then ScanRest(s[2..], st.(current := st.current + ['"']), finish)
      else ScanRest(s[1..], st.(inQuotes := !st.inQuotes), finish)
    else if s[0] == ',' && !st.inQuotes then
      ScanRest(s[1..], st.(fields := st.fields + [finish(st.current)], current := ""), finish)
    else ScanRest(s[1..], st.(current := st.current + [s[0]]), finish)
  }

  /** Every field is left as it is by `finish`. */
  predicate FixedBy(fields: seq<string>, finish: string -> string) {
    forall k :: 0 <= k < |fields| ==> finish(fields[k]) == fields[k]
  }

  /** With an idempotent `finish`, every pushed field is a fixed point. */
  lemma {:induction false} ScanFixed(s: string, st: Scan, finish: string -> string)
    requires forall c :: finish(finish(c)) == finish(c)
    requires FixedBy(st.fields, finish)
    ensures FixedBy(ScanRest(s, st, finish), finish)
    decreases |s|
  {
    if s == [] {
    } else if s[0] == '"' {
      if st.inQuotes && |s| > 1 && s[1] == '"' {
        ScanFixed(s[2..], st.(current := st.current + ['"']), finish);
      } else {
        ScanFixed(s[1..], st.(inQuotes := !st.inQuotes), finish);
      }
    } else if s[0] == ',' && !st.inQuotes {
      ScanFixed(s[1..], st.(fields := st.fields + [finish(st.current)], current := ""), finish);
    } else {
      ScanFixed(s[1..], st.(current := st.current + [s[0]]), finish);
    }
  }

  lemma TrimIsIdempotent()
    ensures forall c :: Trim(Trim(c)) == Trim(c)
  {
    forall c: string
      ensures Trim(Trim(c)) == Trim(c)
    {
      TrimIdempotent(c);
    }
  }

  predicate AllTrimmed(fields: seq<string>) {
    forall k :: 0 <= k < |fields| ==> Trim(fields[k]) == fields[k]
  }

  /** `parseCSVLine(line)`: never empty, and every field trimmed. */
  function ParseCSVLine(line: string): (fields: seq<string>)
    ensures |fields| >= 1
    ensures AllTrimmed(fields)
  {
    TrimIsIdempotent();
    ScanFixed(line, Start, Trim);
    ScanRest(line, Start, Trim)
  }

  /** The commas of `s` that separate fields: those met outside quotes,
      where a doubled '"' inside quotes does not change the mode. */
  function Separators(s: string, inQuotes: bool): nat
    decreases |s|
  {
    if s == [] then 0
    else if s[0] == '"' then
      if inQuotes && |s| > 1 && s[1] == '"' then Separators(s[2..], inQuotes)
      else Separators(s[1..], !inQuotes)
    else if s[0] == ',' && !inQuotes then 1 + Separators(s[1..], inQuotes)
    else Separators(s[1..], inQuotes)
  }

  lemma {:induction false} ScanCount(s: string, st: Scan, finish: string -> string)
    ensures |ScanRest(s, st, finish)| == |st.fields| + 1 + Separators(s, st.inQuotes)
    decreases |s|
  {
    if s == [] {
    } else if s[0] == '"' {
      if st.inQuotes && |s| > 1 && s[1] == '"' {
        ScanCount(s[2..], st.(current := st.current + ['"']), finish);
      } else {
        ScanCount(s[1..], st.(inQuotes := !st.inQuotes), finish);
      }
    } else if s[0] == ',' && !st.inQuotes {
      ScanCount(s[1..], st.(fields := st.fields + [finish(st.current)], current := ""), finish);
    } else {
      ScanCount(s[1..], st.(current := st.current + [s[0]]), finish);
    }
  }

  /** A line has one field more than it has separating commas. */
  lemma FieldCount(line: string)
    ensures |ParseCSVLine(line)| == 1 + Separators(line, false)
  {
    ScanCount(line, Start, Trim);
  }

  /** A run without quotes or commas outside quotes goes into the current
      field unchanged. */
  lemma {:induction false} PlainRun(f: string, rest: string, st: Scan, finish: string -> string)
    requires '"' !in f && ',' !in f && !st.inQuotes
    ensures ScanRest(f + rest, st, finish) == ScanRest(rest, st.(current := st.current + f), finish)
    decreases |f|
  {
    if f == [] {
      assert f + rest == rest;
      assert st.current + f == st.current;
    } else {
      assert (f + rest)[0] == f[0];
      assert (f + rest)[1..] == f[1..] + rest;
      PlainRun(f[1..], rest, st.(current := st.current + [f[0]]), finish);
      assert st.current + [f[0]] + f[1..] == st.current + f;
    }
  }

  /** Text with no quote and no comma. */
  predicate PlainText(f: string) {
    '"' !in f && ',' !in f
  }

  lemma {:induction false} PlainJoin(fields: seq<string>, st: Scan, finish: string -> string)
    requires |fields| >= 1
    requires forall k :: 0 <= k < |fields| ==> PlainText(fields[k])
    requires FixedBy(fields, finish)
    requires st.current == "" && !st.inQuotes
    ensures ScanRest(Join(fields, ','), st, finish) == st.fields + fields
    decreases |fields|
  {
    var f := fields[0];
    if |fields| == 1 {
      assert Join(fields, ',') == f + [];
      PlainRun(f, [], st, finish);
      assert "" + f == f;
    } else {
      var rest := Join(fields[1..], ',');
      assert Join(fields, ',') == f + ([','] + rest);
      PlainRun(f, [','] + rest, st, finish);
      assert "" + f == f;
      var st2 := st.(fields := st.fields + [f], current := "");
      assert ([','] + rest)[1..] == rest;
      assert ScanRest([','] + rest, st.(current := f), finish) == ScanRest(rest, st2, finish);
      PlainJoin(fields[1..], st2, finish);
      assert st.fields + [f] + fields[1..] == st.fields + fields;
    }
  }

  /** Fields with no quote, no comma and no outer whitespace survive a
      comma join and a split. */
  lemma PlainRoundTrip(fields: seq<string>)
    requires |fields| >= 1
    requires forall k :: 0 <= k < |fields| ==> PlainText(fields[k]) && Trim(fields[k]) == fields[k]
    ensures ParseCSVLine(Join(fields, ',')) == fields
  {
    PlainJoin(fields, Start, Trim);
  }

  /** Writing a field in quotes, with each '"' doubled. */
  function Escape(f: string): string
    decreases |f|
  {
    if f == [] then []
    else (if f[0] == '"' then ['"', '"'] else [f[0]]) + Escape(f[1..])
  }

  function QuoteField(f: string): string {
    ['"'] + Escape(f) + ['"']
  }

  /** Inside quotes, an escaped field and its closing quote add the field
      as it was and leave the quotes. */
  lemma {:induction false} QuotedRun(f: string, rest: string, st: Scan, finish: string -> string)
    requires st.inQuotes
    requires rest == [] || rest[0] != '"'
    ensures ScanRest(Escape(f) + ['"'] + rest, st, finish) ==
      ScanRest(rest, st.(current := st.current + f, inQuotes := false), finish)
    decreases |f|
  {
    var s := Escape(f) + ['"'] + rest;
    if f == [] {
      assert s == ['"'] + rest;
      assert s[1..] == rest;
      assert st.current + f == st.current;
    } else {
      var head: string := if f[0] == '"' then ['"', '"'] else [f[0]];
      var tail := Escape(f[1..]) + ['"'] + rest;
      QuotedRun(f[1..], rest, st.(current := st.current + [f[0]]), finish);
      GrowCurrent(st.current, f);
      EscapedHead(f, rest, head, tail);
      if f[0] == '"' {
        assert s[2..] == tail;
      } else {
        assert s[1..] == tail;
      }
    }
  }

  lemma GrowCurrent(current: string, f: string)
    requires f != []
    ensures current + [f[0]] + f[1..] == current + f
  {
    assert [f[0]] + f[1..] == f;
    Associative(current, [f[0]], f[1..]);
  }

  lemma EscapedHead(f: string, rest: string, head: string, tail: string)
    requires f != []
    requires head == if f[0] == '"' then ['"', '"'] else [f[0]]
    requires tail == Escape(f[1..]) + ['"'] + rest
    ensures Escape(f) + ['"'] + rest == head + tail
  {
    assert Escape(f) == head + Escape(f[1..]);
    Associative(head, Escape(f[1..]), ['"']);
    Associative(head, Escape(f[1..]) + ['"'], rest);
  }

  /** An opening quote outside quotes only enters the quotes. */
  lemma OpenQuote(x: string, st: Scan, finish: string -> string)
    requires !st.inQuotes
    ensures ScanRest(['"'] + x, st, finish) == ScanRest(x, st.(inQuotes := true), finish)
  {
    var s := ['"'] + x;
    assert s[0] == '"' && s[1..] == x;
  }

  /** A comma outside quotes pushes the current field. */
  lemma CommaStep(x: string, st: Scan, finish: string -> string)
    requires !st.inQuotes
    ensures ScanRest([','] + x, st, finish) ==
      ScanRest(x, st.(fields := st.fields + [finish(st.current)], current := ""), finish)
  {
    var s := [','] + x;
    assert s[0] == ',' && s[1..] == x;
  }

  /** Reading a quoted field then what follows it. */
  lemma QuotedField(f: string, rest: string, st: Scan, finish: string -> string)
    requires !st.inQuotes
    requires rest == [] || rest[0] != '"'
    ensures ScanRest(QuoteField(f) + rest, st, finish) == ScanRest(rest, st.(current := st.current + f), finish)
  {
    var x := Escape(f) + ['"'] + rest;
    assert QuoteField(f) + rest == ['"'] + x;
    OpenQuote(x, st, finish);
    QuotedRun(f, rest, st.(inQuotes := true), finish);
  }

  function QuoteAll(fields: seq<string>): (q: seq<string>)
    ensures |q| == |fields|
    ensures forall k :: 0 <= k < |fields| ==> q[k] == QuoteField(fields[k])
  {
    seq(|fields|, k requires 0 <= k < |fields| => QuoteField(fields[k]))
  }

  function FinishAll(fields: seq<string>, finish: string -> string): (t: seq<string>)
    ensures |t| == |fields|
    ensures forall k :: 0 <= k < |fields| ==> t[k] == finish(fields[k])
  {
    seq(|fields|, k requires 0 <= k < |fields| => finish(fields[k]))
  }

  /** The quoted join of two or more fields: the first quoted field, a
      comma, and the quoted join of the rest. */
  lemma QuotedJoinCons(fields: seq<string>)
    requires |fields| >= 2
    ensures Join(QuoteAll(fields), ',') == QuoteField(fields[0]) + ([','] + Join(QuoteAll(fields[1..]), ','))
  {
    var q := QuoteAll(fields);
    assert q[1..] == QuoteAll(fields[1..]);
    assert q[0] == QuoteField(fields[0]);
  }

  lemma FinishAllCons(fields: seq<string>, finish: string -> string)
    requires |fields| >= 1
    ensures FinishAll(fields, finish) == [finish(fields[0])] + FinishAll(fields[1..], finish)
  {
  }

  lemma {:induction false} QuotedJoin(fields: seq<string>, st: Scan, finish: string -> string)
    requires |fields| >= 1
    requires st.current == "" && !st.inQuotes
    ensures ScanRest(Join(QuoteAll(fields), ','), st, finish) == st.fields + FinishAll(fields, finish)
    decreases |fields|
  {
    if |fields| == 1 {
      QuotedSingle(fields[0], st, finish);
    } else {
      var st2 := st.(fields := st.fields + [finish(fields[0])], current := "");
      QuotedJoin(fields[1..], st2, finish);
      QuotedJoinStep(fields, st, finish);
    }
  }

  lemma QuotedSingle(f: string, st: Scan, finish: string -> string)
    requires st.current == "" && !st.inQuotes
    ensures ScanRest(Join(QuoteAll([f]), ','), st, finish) == st.fields + FinishAll([f], finish)
  {
    assert st.current + f == f;
    assert Join(QuoteAll([f]), ',') == QuoteField(f) + [];
    QuotedField(f, [], st, finish);
    assert FinishAll([f], finish) == [finish(f)];
  }

  /** A quoted field and the comma after it, met at the start of a field,
      push the field. */
  lemma QuotedThenComma(f: string, rest: string, st: Scan, finish: string -> string)
    requires st.current == "" && !st.inQuotes
    ensures ScanRest(QuoteField(f) + ([','] + rest), st, finish) ==
      ScanRest(rest, st.(fields := st.fields + [finish(f)], current := ""), finish)
  {
    var st1 := st.(current := f);
    assert st.(current := st.current + f) == st1 by {
      assert st.current + f == f;
    }
    QuotedField(f, [','] + rest, st, finish);
    CommaStep(rest, st1, finish);
  }

  /** One field more in front: the first quoted field and the comma after
      it push the field and leave the rest to be read. */
  lemma QuotedJoinStep(fields: seq<string>, st: Scan, finish: string -> string)
    requires |fields| >= 2
    requires st.current == "" && !st.inQuotes
    requires var st2 := st.(fields := st.fields + [finish(fields[0])], current := "");
      ScanRest(Join(QuoteAll(fields[1..]), ','), st2, finish) == st2.fields + FinishAll(fields[1..], finish)
    ensures ScanRest(Join(QuoteAll(fields), ','), st, finish) == st.fields + FinishAll(fields, finish)
  {
    QuotedJoinCons(fields);
    QuotedThenComma(fields[0], Join(QuoteAll(fields[1..]), ','), st, finish);
    FinishAllCons(fields, finish);
    PushThenRest(st.fields, finish(fields[0]), FinishAll(fields[1..], finish));
  }

  lemma PushThenRest(pushed: seq<string>, f: string, later: seq<string>)
    ensures pushed + [f] + later == pushed + ([f] + later)
  {
  }

  /** Any fields, written RFC 4180 style (each quoted, '"' doubled, joined
      by commas), read back as themselves, trimmed: commas and quotes
      inside a quoted field are kept. */
  lemma QuotedRoundTrip(fields: seq<string>)
    requires |fields| >= 1
    ensures ParseCSVLine(Join(QuoteAll(fields), ',')) == FinishAll(fields, Trim)
  {
    QuotedJoin(fields, Start, Trim);
  }

  // ---------------------------------------------------------------------
  // `findColumnIndex`
  // ---------------------------------------------------------------------

  /** The header's lower case contains the name's lower case. */
  predicate HeaderHas(header: string, name: string) {
    Contains(Lower(header), Lower(name))
  }

  /** `headers.findIndex(h => HeaderHas(h, name))`. */
  function FindHeader(headers: seq<string>, name: string): (k: int)
    ensures -1 <= k < |headers|
    ensures k == -1 <==> forall j :: 0 <= j < |headers| ==> !HeaderHas(headers[j], name)
    ensures k >= 0 ==> HeaderHas(headers[k], name) && forall j :: 0 <= j < k ==> !HeaderHas(headers[j], name)
  {
    if headers == [] then -1
    else if HeaderHas(headers[0], name) then 0
    else
      var k := FindHeader(headers[1..], name);
      if k == -1 then
        assert forall j :: 1 <= j < |headers| ==> headers[j] == headers[1..][j - 1];
        -1
      else k + 1
  }

  /** `names[n]` is the first name some header contains. */
  predicate FirstFound(headers: seq<string>, names: seq<string>, n: int) {
    && 0 <= n < |names|
    && FindHeader(headers, names[n]) != -1
    && forall m :: 0 <= m < n ==> FindHeader(headers, names[m]) == -1
  }

  /** `findColumnIndex(headers, names)`: the names are tried in order and
      the first one found in some header decides. */
  function FindColumnIndex(headers: seq<string>, names: seq<string>): (k: int)
    ensures -1 <= k < |headers|
    ensures k == -1 <==> forall n :: 0 <= n < |names| ==> FindHeader(headers, names[n]) == -1
    ensures k >= 0 ==> exists n :: FirstFound(headers, names, n) && k == FindHeader(headers, names[n])
    decreases |names|
  {
    if names == [] then -1
    else
      var k := FindHeader(headers, names[0]);
      if k != -1 then k
      else
        var r := FindColumnIndex(headers, names[1..]);
        if r >= 0 then
          var n :| FirstFound(headers, names[1..], n) && r == FindHeader(headers, names[1..][n]);
          FirstFoundLater(headers, names, n);
          r
        else
          NoneFoundLater(headers, names);
          r
  }

  /** Past a first name no header contains, the later names decide. */
  lemma FirstFoundLater(headers: seq<string>, names: seq<string>, n: int)
    requires names != [] && FindHeader(headers, names[0]) == -1
    requires FirstFound(headers, names[1..], n)
    ensures FirstFound(headers, names, n + 1) && names[n + 1] == names[1..][n]
  {
    forall m | 0 <= m < n + 1
      ensures FindHeader(headers, names[m]) == -1
    {
      if m > 0 {
        assert names[m] == names[1..][m - 1];
      }
    }
  }

  lemma NoneFoundLater(headers: seq<string>, names: seq<string>)
    requires names != [] && FindHeader(headers, names[0]) == -1
    requires forall n :: 0 <= n < |names| - 1 ==> FindHeader(headers, names[1..][n]) == -1
    ensures forall n :: 0 <= n < |names| ==> FindHeader(headers, names[n]) == -1
  {
    forall n | 1 <= n < |names|
      ensures FindHeader(headers, names[n]) == -1
    {
      assert names[n] == names[1..][n - 1];
    }
  }

  /** A name listed earlier wins over a later one even when the later one
      matches an earlier header. */
  lemma FirstNameWins(headers: seq<string>, names: seq<string>)
    requires names != [] && FindHeader(headers, names[0]) != -1
    ensures FindColumnIndex(headers, names) == FindHeader(headers, names[0])
  {
  }

  const DateNames: seq<string> := ["дата", "date", "день"]
  const CountNames: seq<string> := ["количество", "кол-во", "count", "amount"]
  const DepartmentNames: seq<string> := ["отдел", "department", "категория"]

  // ---------------------------------------------------------------------
  // `parseDate`
  // ---------------------------------------------------------------------

  /** A calendar day as the three numbers read from the text. */
  datatype CalendarDate = CalendarDate(year: int, month: int, day: int)

  /** What `parseDate` produced: a date read by one of the four formats,
      or the cleaned text the host's own parser accepted. */
  datatype ParsedDate = Recognized(date: CalendarDate) | FreeForm(text: string)

  /** `lo` to `hi` ASCII digits (`\d{lo,hi}`). */
  predicate DigitRun(s: string, lo: nat, hi: nat) {
    lo <= |s| <= hi && AllDigits(s)
  }

  /** `dateStr.replace(/['"]/g, '')`. */
  function StripQuotes(s: string): (r: string)
    ensures forall c :: c in r <==> c in s && c != '\'' && c != '"'
    ensures '\'' !in s && '"' !in s ==> r == s
    decreases |s|
  {
    if s == [] then []
    else if s[0] == '\'' || s[0] == '"' then StripQuotes(s[1..])
    else
      assert s == [s[0]] + s[1..];
      [s[0]] + StripQuotes(s[1..])
  }

  /** `^(\d{1,2})<sep>(\d{1,2})<sep>(\d{4})$`, read day, month, year. */
  function DayFirst(s: string, sep: char): (r: Option<CalendarDate>)
    ensures sep !in s ==> r.None?
  {
    var p := Split(s, sep);
    if |p| == 3 && DigitRun(p[0], 1, 2) && DigitRun(p[1], 1, 2) && DigitRun(p[2], 4, 4) then
      Some(CalendarDate(DigitsValue(p[2]), DigitsValue(p[1]), DigitsValue(p[0])))
    else None
  }

  /** `^(\d{4})-(\d{1,2})-(\d{1,2})$`, read year, month, day. */
  function YearFirst(s: string): (r: Option<CalendarDate>)
    ensures '-' !in s ==> r.None?
  {
    var p := Split(s, '-');
    if |p| == 3 && DigitRun(p[0], 4, 4) && DigitRun(p[1], 1, 2) && DigitRun(p[2], 1, 2) then
      Some(CalendarDate(DigitsValue(p[0]), DigitsValue(p[1]), DigitsValue(p[2])))
    else None
  }

  function CleanDate(dateStr: string): string {
    Trim(StripQuotes(dateStr))
  }

  /** The four formats, tried in order on the cleaned text. */
  function RecognizeDate(dateStr: string): (r: Option<CalendarDate>)
  {
    var cleaned := CleanDate(dateStr);
    if DayFirst(cleaned, '.').Some? then DayFirst(cleaned, '.')
    else if DayFirst(cleaned, '/').Some? then DayFirst(cleaned, '/')
    else if DayFirst(cleaned, '-').Some? then DayFirst(cleaned, '-')
    else YearFirst(cleaned)
  }

  /** `parseDate(dateStr)`, with `accepts` standing for the host's own
      parser (`new Date(cleaned)` giving a valid time). */
  function ParseDate(dateStr: string, accepts: string -> bool): (r: Option<ParsedDate>)
    ensures RecognizeDate(dateStr).Some? ==> r == Some(Recognized(RecognizeDate(dateStr).value))
    ensures RecognizeDate(dateStr).None? ==>
      (r.Some? <==> accepts(CleanDate(dateStr))) && (r.Some? ==> r.value == FreeForm(CleanDate(dateStr)))
  {
    match RecognizeDate(dateStr)
    case Some(d) => Some(Recognized(d))
    case None =>
      var cleaned := CleanDate(dateStr);
      if accepts(cleaned) then Some(FreeForm(cleaned)) else None
  }

  /** A text of digits and separators has nothing to clean. */
  lemma CleanOfDateText(s: string)
    requires s != [] && IsDigit(s[0]) && IsDigit(s[|s| - 1])
    requires '\'' !in s && '"' !in s
    ensures CleanDate(s) == s
  {
    TrimOfTrimmed(s);
  }

  /** Day, month and year joined by the separator. */
  function DayFirstText(d: string, m: string, y: string, sep: char): string {
    d + [sep] + m + [sep] + y
  }

  lemma DayFirstOfText(d: string, m: string, y: string, sep: char)
    requires DigitRun(d, 1, 2) && DigitRun(m, 1, 2) && DigitRun(y, 4, 4) && !IsDigit(sep)
    ensures DayFirst(DayFirstText(d, m, y, sep), sep) ==
      Some(CalendarDate(DigitsValue(y), DigitsValue(m), DigitsValue(d)))
  {
    DigitsFree(d, sep);
    DigitsFree(m, sep);
    DigitsFree(y, sep);
    Split3(d, m, y, sep);
  }

  lemma DigitsFree(s: string, c: char)
    requires AllDigits(s) && !IsDigit(c)
    ensures c !in s
  {
  }

  /** `D.M.YYYY`, `D/M/YYYY` and `D-M-YYYY`, with one- or two-digit day
      and month, are read day first. */
  lemma RecognizeDayFirst(d: string, m: string, y: string, sep: char)
    requires DigitRun(d, 1, 2) && DigitRun(m, 1, 2) && DigitRun(y, 4, 4)
    requires sep == '.' || sep == '/' || sep == '-'
    ensures RecognizeDate(DayFirstText(d, m, y, sep)) ==
      Some(CalendarDate(DigitsValue(y), DigitsValue(m), DigitsValue(d)))
  {
    CleanOfDigitsText(d, m, y, sep);
    DayFirstOfText(d, m, y, sep);
    if sep != '.' {
      OtherSeparatorAbsent(d, m, y, sep, '.');
    }
    if sep == '-' {
      OtherSeparatorAbsent(d, m, y, sep, '/');
    }
  }

  lemma OtherSeparatorAbsent(d: string, m: string, y: string, sep: char, other: char)
    requires AllDigits(d) && AllDigits(m) && AllDigits(y) && other != sep && !IsDigit(other)
    ensures other !in DayFirstText(d, m, y, sep)
  {
    DigitsFree(d, other);
    DigitsFree(m, other);
    DigitsFree(y, other);
  }

  lemma YearFirstOfText(y: string, m: string, d: string)
    requires DigitRun(y, 4, 4) && DigitRun(m, 1, 2) && DigitRun(d, 1, 2)
    ensures Split(DayFirstText(y, m, d, '-'), '-') == [y, m, d]
    ensures YearFirst(DayFirstText(y, m, d, '-')) ==
      Some(CalendarDate(DigitsValue(y), DigitsValue(m), DigitsValue(d)))
    ensures DayFirst(DayFirstText(y, m, d, '-'), '-').None?
  {
    DigitsFree(y, '-');
    DigitsFree(m, '-');
    DigitsFree(d, '-');
    Split3(y, m, d, '-');
  }

  lemma CleanOfDigitsText(a: string, b: string, c: string, sep: char)
    requires DigitRun(a, 1, 4) && DigitRun(b, 1, 2) && DigitRun(c, 1, 4) && !IsDigit(sep)
    requires sep != '\'' && sep != '"'
    ensures CleanDate(DayFirstText(a, b, c, sep)) == DayFirstText(a, b, c, sep)
  {
    var s := DayFirstText(a, b, c, sep);
    DigitsFree(a, '\'');
    DigitsFree(b, '\'');
    DigitsFree(c, '\'');
    DigitsFree(a, '"');
    DigitsFree(b, '"');
    DigitsFree(c, '"');
    assert s[0] == a[0] && s[|s| - 1] == c[|c| - 1];
    CleanOfDateText(s);
  }

  /** `YYYY-M-D` is read year first: its four-digit first part fails the
      day-first `-` format, which is tried before. */
  lemma RecognizeYearFirst(y: string, m: string, d: string)
    requires DigitRun(y, 4, 4) && DigitRun(m, 1, 2) && DigitRun(d, 1, 2)
    ensures RecognizeDate(DayFirstText(y, m, d, '-')) ==
      Some(CalendarDate(DigitsValue(y), DigitsValue(m), DigitsValue(d)))
  {
    CleanOfDigitsText(y, m, d, '-');
    YearFirstOfText(y, m, d);
    OtherSeparatorAbsent(y, m, d, '-', '.');
    OtherSeparatorAbsent(y, m, d, '-', '/');
  }

  // ---------------------------------------------------------------------
  // `parseRowToEvent` and `parseCSVToEvents`
  // ---------------------------------------------------------------------

  const GeneralDepartment: string := "Общий"

  /** `parseInt(cell?.replace(/\D/g, '') || '0')`: the cell's digits read
      as a decimal number; no cell or no digit gives 0. */
  function CountOfCell(cell: Option<string>): (n: int)
    ensures n >= 0
    ensures n == DigitsValue(KeepDigits(OrEmpty(cell)))
  {
    var digits := KeepDigits(OrEmpty(cell));
    var text := if digits == "" then "0" else digits;
    ParseIntOfDigits(text);
    assert DigitsValue("0") == 0 by {
      assert "0"[..0] == "";
    }
    ParseInt(text).value
  }

  /** `values[i]?.trim()`. */
  function TrimmedCell(values: seq<string>, i: int): (c: Option<string>)
    ensures c.Some? <==> 0 <= i < |values|
    ensures c.Some? ==> c.value == Trim(values[i])
  {
    if 0 <= i < |values| then Some(Trim(values[i])) else None
  }

  /** The clock reading of the event id, the free-form date parser and
      the conversion of a parsed date to its `YYYY-MM-DD` day. */
  datatype Host = Host(now: int, accepts: string -> bool, isoDay: ParsedDate -> string)

  /** `parseRowToEvent(headers, values, sheetName, rowIndex)`. */
  function ParseRowToEvent(headers: seq<string>, values: seq<string>, sheetName: string, rowIndex: int,
                           host: Host): (e: Option<DeliveryEvent>)
    ensures FindColumnIndex(headers, DateNames) == -1 ==> e.None?
    ensures e.Some? ==> (
      var dateCell := TrimmedCell(values, FindColumnIndex(headers, DateNames));
      && Truthy(dateCell)
      && ParseDate(dateCell.value, host.accepts).Some?
      && e.value.date == host.isoDay(ParseDate(dateCell.value, host.accepts).value)
      && e.value.marketplace == Wildberries
      && e.value.warehouse == sheetName
      && e.value.itemCount >= 0
      && (FindColumnIndex(headers, CountNames) == -1 ==> e.value.itemCount == 1)
      && (FindColumnIndex(headers, DepartmentNames) == -1 ==> e.value.department == GeneralDepartment)
      && e.value.department != ""
      && e.value.title == e.value.department + " (" + IntToString(e.value.itemCount) + ")")
    ensures e.Some? <==> (
      var dateCell := TrimmedCell(values, FindColumnIndex(headers, DateNames));
      Truthy(dateCell) && ParseDate(dateCell.value, host.accepts).Some?)
    ensures e.Some? && FindColumnIndex(headers, CountNames) != -1 ==>
      e.value.itemCount == CountOfCell(SheetRows.CellAt(values, FindColumnIndex(headers, CountNames)))
    ensures e.Some? && FindColumnIndex(headers, DepartmentNames) != -1 ==> (
      var departmentCell := TrimmedCell(values, FindColumnIndex(headers, DepartmentNames));
      e.value.department == if Truthy(departmentCell) then departmentCell.value else GeneralDepartment)
  {
    var dateIndex := FindColumnIndex(headers, DateNames);
    var countIndex := FindColumnIndex(headers, CountNames);
    var departmentIndex := FindColumnIndex(headers, DepartmentNames);
    if dateIndex == -1 then None
    else
      var dateStr := TrimmedCell(values, dateIndex);
      if !Truthy(dateStr) then None
      else
        match ParseDate(dateStr.value, host.accepts)
        case None => None
        case Some(date) =>
          var itemCount := if countIndex != -1 then CountOfCell(SheetRows.CellAt(values, countIndex)) else 1;
          var departmentCell := TrimmedCell(values, departmentIndex);
          var department := if departmentIndex != -1 && Truthy(departmentCell) then departmentCell.value
                            else GeneralDepartment;
          Some(DeliveryEvent(
            id := "public-" + sheetName + "-" + IntToString(rowIndex) + "-" + IntToString(host.now),
            title := department + " (" + IntToString(itemCount) + ")",
            date := host.isoDay(date),
            marketplace := Wildberries,
            warehouse := sheetName,
            department := department,
            itemCount := itemCount,
            realizationNumber := None,
            configId := None,
            deliveryNumber := None,
            transitWarehouse := None))
  }

  /** How the line after the header at position `j` (line `j + 2` of the
      text, counting from 1) is read: blank lines give nothing. */
  function ReadLine(headers: seq<string>, sheetName: string, host: Host, line: string, j: nat)
    : (e: Option<DeliveryEvent>)
    ensures e.Some? ==> Trim(line) != "" && FindColumnIndex(headers, DateNames) != -1
    ensures e.Some? ==> e.value.marketplace == Wildberries && e.value.warehouse == sheetName
  {
    var trimmed := Trim(line);
    if trimmed == "" then None
    else ParseRowToEvent(headers, ParseCSVLine(trimmed), sheetName, j + 2, host)
  }

  function LineReader(headers: seq<string>, sheetName: string, host: Host): (string, nat) -> Option<DeliveryEvent> {
    (line: string, j: nat) => ReadLine(headers, sheetName, host, line, j)
  }

  /** `parseCSVToEvents(csvText, sheetName)`. */
  function ParseCSVToEvents(csvText: string, sheetName: string, host: Host): (events: seq<DeliveryEvent>)
    ensures |Split(csvText, '\n')| < 2 ==> events == []
    ensures |events| <= |Split(csvText, '\n')|
  {
    var lines := Split(csvText, '\n');
    if |lines| < 2 then []
    else Collect(lines[1..], LineReader(ParseCSVLine(lines[0]), sheetName, host))
  }

  /** Each event is the row reading of one non-blank line after the
      header, numbered from 1 as in the text, and is a Wildberries
      delivery at the sheet's name. */
  lemma CsvEventsFromLines(csvText: string, sheetName: string, host: Host, e: DeliveryEvent)
    requires e in ParseCSVToEvents(csvText, sheetName, host)
    ensures e.marketplace == Wildberries && e.warehouse == sheetName
    ensures exists j :: 1 <= j < |Split(csvText, '\n')| && Trim(Split(csvText, '\n')[j]) != ""
    ensures exists j :: (
      && 1 <= j < |Split(csvText, '\n')|
      && ParseRowToEvent(ParseCSVLine(Split(csvText, '\n')[0]), ParseCSVLine(Trim(Split(csvText, '\n')[j])),
                         sheetName, j + 1, host) == Some(e))
  {
    var lines := Split(csvText, '\n');
    var read := LineReader(ParseCSVLine(lines[0]), sheetName, host);
    CollectMember(lines[1..], read, e);
    var j :| 0 <= j < |lines[1..]| && read(lines[1..][j], j) == Some(e);
    assert ReadLine(ParseCSVLine(lines[0]), sheetName, host, lines[1..][j], j) == Some(e);
    assert lines[1..][j] == lines[j + 1];
  }

  /** Without a date column nothing is read. */
  lemma NoDateColumnNoEvents(csvText: string, sheetName: string, host: Host)
    requires |Split(csvText, '\n')| >= 2
    requires FindColumnIndex(ParseCSVLine(Split(csvText, '\n')[0]), DateNames) == -1
    ensures ParseCSVToEvents(csvText, sheetName, host) == []
  {
    var lines := Split(csvText, '\n');
    NothingReadWithoutDate(ParseCSVLine(lines[0]), sheetName, host, lines[1..]);
  }

  lemma NothingReadWithoutDate(headers: seq<string>, sheetName: string, host: Host, rows: seq<string>)
    requires FindColumnIndex(headers, DateNames) == -1
    ensures Collect(rows, LineReader(headers, sheetName, host)) == []
  {
    var read := LineReader(headers, sheetName, host);
    forall i | 0 <= i < |rows|
      ensures read(rows[i], i).None?
    {
      assert read(rows[i], i) == ReadLine(headers, sheetName, host, rows[i], i);
    }
    CollectNothing(rows, read);
  }
}
