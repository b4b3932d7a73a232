/** Exporting a query result as a CSV file list, and reading such a list back. */
module FileList {
  import opened Common
  import opened CsvReader
  import G = CsvGrammar

  datatype FileRow = FileRow(path: Bytes, size: int, modified: int, isDir: bool)

  const INT64_MAX := 0x7fff_ffff_ffff_ffff
  const UINT64_MAX := 0xffff_ffff_ffff_ffff
  const EPOCH := 11_644_473_600  // seconds from 1601 to 1970
  const TICKS := 10_000_000      // file times count 100 ns

  function Ascii(s: string): (r: Bytes)
    requires forall i :: 0 <= i < |s| ==> s[i] < 128 as char
    ensures |r| == |s|
  {
    seq(|s|, i requires 0 <= i < |s| => s[i] as int as byte)
  }

  // ---------- Numbers as text ----------

  function Decimal(n: nat): Bytes {
    if n < 10 then [(48 + n) as byte] else Decimal(n / 10) + [(48 + n % 10) as byte]
  }

  function Digits(text: Bytes): Option<nat> {
    if text == [] then None
    else
      var last := text[|text| - 1] as int;
      if last < 48 || last > 57 then None
      else if |text| == 1 then Some(last - 48)
      else
        var front := Digits(text[..|text| - 1]);
        if front.None? then None else Some(10 * front.value + last - 48)
  }

  /** A fixed-width integer read from text: a sign, digits, and the type's range. */
  function Integer(text: Bytes, low: int, high: int): Option<int> {
    var negative := text != [] && text[0] == 45;
    var digits := Digits(if text != [] && (text[0] == 43 || text[0] == 45) then text[1..] else text);
    if digits.None? then None
    else
      var value: int := if negative then 0 - digits.value else digits.value;
      if low <= value <= high then Some(value) else None
  }

  lemma {:induction false} DecimalDigits(n: nat)
    ensures Decimal(n) != [] && Digits(Decimal(n)) == Some(n)
    ensures forall i :: 0 <= i < |Decimal(n)| ==> 48 <= Decimal(n)[i] <= 57
  {
    if n >= 10 {
      DecimalDigits(n / 10);
      assert Decimal(n)[..|Decimal(n)| - 1] == Decimal(n / 10);
    }
  }

  lemma DecimalInteger(n: nat, low: int, high: int)
    requires low <= n <= high
    ensures Integer(Decimal(n), low, high) == Some(n)
  {
    DecimalDigits(n);
  }

  lemma {:induction false} DecimalLength(n: nat, digits: nat)
    requires digits >= 1 && n < Power10(digits)
    ensures |Decimal(n)| <= digits
    decreases digits
  {
    if n >= 10 {
      assert digits > 1;
      DecimalLength(n / 10, digits - 1);
    }
  }

  function Power10(n: nat): nat {
    if n == 0 then 1 else 10 * Power10(n - 1)
  }

  // ---------- Export ----------

  /** Seconds since 1970 as a file time, unless 64-bit arithmetic overflows. */
  function FileTime(seconds: int): Option<nat> {
    var epoch := (if seconds < -EPOCH then -EPOCH else seconds) + EPOCH;
    if epoch > INT64_MAX || epoch * TICKS > INT64_MAX then None else Some(epoch * TICKS)
  }

  function Attributes(isDir: bool): nat {
    if isDir then 16 else 0
  }

  const HEADER: Bytes :=
    Ascii("Filename") + [COMMA] + Ascii("Size") + [COMMA] + Ascii("Date Modified") + [COMMA] + Ascii("Attributes")
        + [CR, LF]

  function RowText(path: Bytes, size: nat, time: nat, isDir: bool): Bytes {
    [QUOTE] + G.Escape(path) + [QUOTE] + [COMMA] + Decimal(size) + [COMMA] + Decimal(time) + [COMMA]
        + Decimal(Attributes(isDir)) + [CR, LF]
  }

  predicate Representable(r: FileRow) {
    0 <= r.size <= UINT64_MAX && FileTime(r.modified).Some?
  }

  function Exported(rows: seq<FileRow>): Bytes
    requires forall i :: 0 <= i < |rows| ==> Representable(rows[i])
  {
    if rows == [] then HEADER
    else
      var r := rows[|rows| - 1];
      assert Representable(r);
      Exported(rows[..|rows| - 1]) + RowText(r.path, r.size, FileTime(r.modified).value, r.isDir)
  }

  /** The export loop: fails on the first time that has no file time. */
  method Export(rows: seq<FileRow>) returns (output: Option<Bytes>)
    requires forall i :: 0 <= i < |rows| ==> 0 <= rows[i].size <= UINT64_MAX
    ensures output.Some? <==> forall i :: 0 <= i < |rows| ==> Representable(rows[i])
    ensures output.Some? ==> output.value == Exported(rows)
  {
    var buffer := HEADER;
    var i := 0;
    while i < |rows|
      invariant i <= |rows|
      invariant forall j :: 0 <= j < i ==> Representable(rows[j])
      invariant buffer == Exported(rows[..i])
    {
      var time := FileTime(rows[i].modified);
      if time.None? {
        assert !Representable(rows[i]);
        return None;
      }
      assert rows[..i + 1][..i] == rows[..i];
      buffer := buffer + RowText(rows[i].path, rows[i].size, time.value, rows[i].isDir);
      i := i + 1;
    }
    assert rows[..i] == rows;
    output := Some(buffer);
  }

  // ---------- Import ----------

  function Lower(text: Bytes): Bytes {
    seq(|text|, i requires 0 <= i < |text| => if 65 <= text[i] <= 90 then text[i] + 32 else text[i])
  }

  /** The first column with one of two names, in any case. */
  function ColumnOf(record: Row, name: Bytes, other: Bytes): Option<nat> {
    if record == [] then None
    else if Lower(record[0]) == name || Lower(record[0]) == other then Some(0)
    else
      var rest := ColumnOf(record[1..], name, other);
      if rest.None? then None else Some(rest.value + 1)
  }

  datatype Columns = Columns(path: nat, size: Option<nat>, date: Option<nat>, attributes: Option<nat>)

  function Header(record: Row): Option<Columns> {
    var path := ColumnOf(record, Ascii("filename"), Ascii("path"));
    if path.None? then None
    else Some(Columns(path.value,
                      ColumnOf(record, Ascii("size"), Ascii("size")),
                      ColumnOf(record, Ascii("date modified"), Ascii("modified")),
                      ColumnOf(record, Ascii("attributes"), Ascii("attributes"))))
  }

  function Value(record: Row, column: Option<nat>): Bytes {
    if column.Some? && column.value < |record| then record[column.value] else []
  }

  function OrZero(value: Option<int>): int {
    if value.Some? then value.value else 0
  }

  /** A file time beyond the threshold, anything else taken as seconds. */
  function Modified(raw: int): int {
    if raw > 100_000_000_000 then raw / TICKS - EPOCH else raw
  }

  /** A data record; records without a path are skipped. */
  function ImportRow(c: Columns, record: Row): seq<FileRow> {
    if c.path >= |record| || record[c.path] == [] then []
    else
      var raw := OrZero(Integer(Value(record, c.date), -INT64_MAX - 1, INT64_MAX));
      var attributes := OrZero(Integer(Value(record, c.attributes), 0, UINT64_MAX));
      [FileRow(record[c.path], OrZero(Integer(Value(record, c.size), 0, UINT64_MAX)), Modified(raw),
          attributes / 16 % 2 == 1)]
  }

  function ImportRows(c: Columns, records: seq<Row>): seq<FileRow> {
    if records == [] then [] else ImportRow(c, records[0]) + ImportRows(c, records[1..])
  }

  /** The whole list, or nothing when no header names a path column. */
  function Imported(records: seq<Row>): Option<seq<FileRow>> {
    if records == [] || Header(records[0]).None? then None
    else Some(ImportRows(Header(records[0]).value, records[1..]))
  }

  datatype ImportError = Csv(error: Error) | MissingColumn | FileChanged

  datatype Outcome = Failed(error: ImportError) | Listed(rows: seq<FileRow>)

  /** The first record was handed on and names no path column, so the import has already stopped. */
  predicate Headless(records: seq<Row>) {
    records != [] && Header(records[0]).None?
  }

  /** What the import of a parsed input gives: the header is judged when the first record is handed on,
    * before anything that follows it; whether the file has changed, when all has been read; and whether there
    * was a header at all, after that. */
  function OutcomeOf(parsed: State, changed: bool): Outcome {
    if Headless(parsed.emitted) then Failed(MissingColumn)
    else if parsed.failed.Some? then Failed(Csv(parsed.failed.value))
    else if changed then Failed(FileChanged)
    else if parsed.emitted == [] then Failed(MissingColumn)
    else Listed(Imported(parsed.emitted).value)
  }

  /** What the import gives when the next chunk would pass the byte limit. */
  function OutcomeAtLimit(reached: State): Outcome {
    if Headless(reached.emitted) then Failed(MissingColumn)
    else if reached.failed.Some? then Failed(Csv(reached.failed.value))
    else Failed(Csv(FileListLimit))
  }

  /** The state after the given bytes; fewer than three are still held back as a possible mark. */
  function Reached(limits: Limits, input: Bytes): State {
    if |input| < 3 then START else Run(limits, START, StripMark(input))
  }

  /** The first n chunks fit the limit, and the next one does not. */
  ghost predicate LimitAt(limits: Limits, chunks: seq<Bytes>, n: nat) {
    n < |chunks| && |Concat(chunks[..n])| <= limits.bytes < |Concat(chunks[..n + 1])|
  }

  /** Reading a list chunk by chunk. A file that is too large from the start is refused unread. Otherwise,
    * within the byte limit, the outcome depends on the bytes alone and on whether the file changed meanwhile;
    * beyond it, on the bytes of the chunks before the one that passes the limit. */
  method Import(limits: Limits, size: nat, chunks: seq<Bytes>, changed: bool) returns (outcome: Outcome)
    ensures size > limits.bytes ==> outcome == Failed(Csv(FileListLimit))
    ensures size <= limits.bytes && |Concat(chunks)| <= limits.bytes ==>
              outcome == OutcomeOf(Parse(limits, Concat(chunks)), changed)
    ensures size <= limits.bytes ==>
              forall n: nat :: LimitAt(limits, chunks, n) ==>
                outcome == OutcomeAtLimit(Reached(limits, Concat(chunks[..n])))
  {
    hide Run, Parse, ImportRows, StripMark;
    if size > limits.bytes {
      return Failed(Csv(FileListLimit));
    }
    var reader := new CSVReader(limits);
    var i := 0;
    while i < |chunks|
      invariant i <= |chunks| && reader.Valid() && reader.failed.None? && fresh(reader) && reader.limits == limits
      invariant reader.consumed == Concat(chunks[..i]) && |reader.consumed| <= limits.bytes
      invariant !Headless(reader.emitted)
    {
      assert chunks[..i + 1][..i] == chunks[..i];
      ConcatPrefix(chunks, i + 1);
      var error := reader.Feed(chunks[i]);
      if |Concat(chunks[..i + 1])| > limits.bytes {
        OnlyLimit(limits, chunks, i);
        return Failed(Csv(FileListLimit));
      }
      i := i + 1;
      if Headless(reader.emitted) {
        SettledEarly(limits, chunks, i);
        return Failed(MissingColumn);
      }
      if error.Some? {
        SettledEarly(limits, chunks, i);
        return Failed(Csv(error.value));
      }
    }
    assert chunks[..i] == chunks;
    NoLimit(limits, chunks);
    var error := reader.Close();
    if Headless(reader.emitted) {
      return Failed(MissingColumn);
    }
    if error.Some? {
      return Failed(Csv(error.value));
    }
    if changed {
      return Failed(FileChanged);
    }
    if reader.emitted == [] {
      return Failed(MissingColumn);
    }
    outcome := Listed(ImportRows(Header(reader.emitted[0]).value, reader.emitted[1..]));
  }

  function Concat(chunks: seq<Bytes>): Bytes {
    if chunks == [] then [] else Concat(chunks[..|chunks| - 1]) + chunks[|chunks| - 1]
  }

  lemma {:induction false} ConcatPrefix(chunks: seq<Bytes>, n: nat)
    requires n <= |chunks|
    ensures |Concat(chunks[..n])| <= |Concat(chunks)| && Concat(chunks)[..|Concat(chunks[..n])|] == Concat(chunks[..n])
    decreases |chunks|
  {
    if n < |chunks| {
      var shorter := chunks[..|chunks| - 1];
      ConcatPrefix(shorter, n);
      assert shorter[..n] == chunks[..n];
    } else {
      assert chunks[..n] == chunks;
    }
  }

  lemma ConcatMonotone(chunks: seq<Bytes>, i: nat, j: nat)
    requires i <= j <= |chunks|
    ensures |Concat(chunks[..i])| <= |Concat(chunks[..j])|
  {
    ConcatPrefix(chunks[..j], i);
    assert chunks[..j][..i] == chunks[..i];
  }

  /** The limit is passed at one chunk only. */
  lemma OnlyLimit(limits: Limits, chunks: seq<Bytes>, i: nat)
    requires LimitAt(limits, chunks, i)
    ensures |Concat(chunks)| > limits.bytes
    ensures forall n: nat :: LimitAt(limits, chunks, n) ==> n == i
  {
    ConcatPrefix(chunks, i + 1);
    forall n: nat | LimitAt(limits, chunks, n) ensures n == i {
      if n < i {
        ConcatMonotone(chunks, n + 1, i);
      } else if i < n {
        ConcatMonotone(chunks, i + 1, n);
      }
    }
  }

  lemma NoLimit(limits: Limits, chunks: seq<Bytes>)
    requires |Concat(chunks)| <= limits.bytes
    ensures forall n: nat :: !LimitAt(limits, chunks, n)
  {
    forall n: nat | n < |chunks| ensures !LimitAt(limits, chunks, n) {
      ConcatPrefix(chunks, n + 1);
    }
  }

  /** Bytes after a prefix neither take back a record that was handed on nor an error. */
  lemma ReachedMore(limits: Limits, part: Bytes, rest: Bytes)
    requires |part| >= 3
    ensures var s, t := Reached(limits, part), Reached(limits, part + rest);
            s.emitted <= t.emitted && (s.failed.Some? ==> t == s)
  {
    var all := part + rest;
    assert all[..3] == part[..3];
    assert StripMark(all) == StripMark(part) + rest;
    RunAppend(limits, START, StripMark(part), rest);
    RunEmits(limits, Run(limits, START, StripMark(part)), rest);
    if Reached(limits, part).failed.Some? {
      RunFailed(limits, Run(limits, START, StripMark(part)), rest);
    }
  }

  lemma ParseMore(limits: Limits, part: Bytes, rest: Bytes)
    requires |part| >= 3
    ensures var s, t := Reached(limits, part), Parse(limits, part + rest);
            s.emitted <= t.emitted && (s.failed.Some? ==> t == s)
  {
    ReachedMore(limits, part, rest);
    FinishEmits(limits, Reached(limits, part + rest));
  }

  /** A bad header or an error after some chunks is the outcome for all of them, wherever they end. */
  lemma SettledEarly(limits: Limits, chunks: seq<Bytes>, i: nat)
    requires i <= |chunks| && |Concat(chunks[..i])| <= limits.bytes
    requires var s := Reached(limits, Concat(chunks[..i])); Headless(s.emitted) || s.failed.Some?
    ensures |Concat(chunks)| <= limits.bytes ==>
              forall changed ::
                OutcomeOf(Parse(limits, Concat(chunks)), changed)
                == OutcomeAtLimit(Reached(limits, Concat(chunks[..i])))
    ensures forall n: nat :: LimitAt(limits, chunks, n) ==>
              OutcomeAtLimit(Reached(limits, Concat(chunks[..n]))) ==
                  OutcomeAtLimit(Reached(limits, Concat(chunks[..i])))
  {
    if |Concat(chunks)| <= limits.bytes {
      SettledWithin(limits, chunks, i);
    }
    hide Run, Parse, StripMark, Reached, LimitAt, OutcomeAtLimit, Headless;
    forall n: nat | LimitAt(limits, chunks, n)
      ensures OutcomeAtLimit(Reached(limits, Concat(chunks[..n])))
           == OutcomeAtLimit(Reached(limits, Concat(chunks[..i])))
    {
      SettledAtLimit(limits, chunks, i, n);
    }
  }

  lemma SettledAtLimit(limits: Limits, chunks: seq<Bytes>, i: nat, n: nat)
    requires i <= |chunks| && |Concat(chunks[..i])| <= limits.bytes && LimitAt(limits, chunks, n)
    requires var s := Reached(limits, Concat(chunks[..i])); Headless(s.emitted) || s.failed.Some?
    ensures OutcomeAtLimit(Reached(limits, Concat(chunks[..n])))
         == OutcomeAtLimit(Reached(limits, Concat(chunks[..i])))
  {
    hide Run, Parse, StripMark;
    var part := Concat(chunks[..i]);
    if n < i {
      ConcatMonotone(chunks, n + 1, i);
    }
    ConcatPrefix(chunks[..n], i);
    assert chunks[..n][..i] == chunks[..i];
    var all := Concat(chunks[..n]);
    assert all == part + all[|part|..];
    ReachedMore(limits, part, all[|part|..]);
  }

  lemma SettledWithin(limits: Limits, chunks: seq<Bytes>, i: nat)
    requires i <= |chunks| && |Concat(chunks)| <= limits.bytes
    requires var s := Reached(limits, Concat(chunks[..i])); Headless(s.emitted) || s.failed.Some?
    ensures forall changed ::
              OutcomeOf(Parse(limits, Concat(chunks)), changed) == OutcomeAtLimit(Reached(limits, Concat(chunks[..i])))
  {
    hide Run, Parse, StripMark;
    var part := Concat(chunks[..i]);
    ConcatPrefix(chunks, i);
    assert Concat(chunks) == part + Concat(chunks)[|part|..];
    ParseMore(limits, part, Concat(chunks)[|part|..]);
  }

  // ---------- Import undoes export ----------

  /** A time has a file time exactly up to the last second 64 bits can hold, and
      comes back from it exactly when it lies beyond the import threshold. */
  lemma TimeRecovered(seconds: int)
    ensures FileTime(seconds).Some? <==> seconds <= 910_692_730_085
    ensures FileTime(seconds).Some? ==>
      (Modified(FileTime(seconds).value) == seconds <==> seconds > -11_644_463_600)
  {
  }

  lemma TimeRange(seconds: int)
    requires FileTime(seconds).Some?
    ensures FileTime(seconds).value <= INT64_MAX
  {
  }

  /** The derivation an exported row is written by. */
  function RowRecord(r: FileRow): G.Record
    requires Representable(r)
  {
    G.Record([G.Quoted(r.path), G.Plain(Decimal(r.size)), G.Plain(Decimal(FileTime(r.modified).value)),
        G.Plain(Decimal(Attributes(r.isDir)))],
             G.EndCRLF)
  }

  const HEADER_RECORD :=
      G.Record([G.Plain(Ascii("Filename")), G.Plain(Ascii("Size")), G.Plain(Ascii("Date Modified")),
      G.Plain(Ascii("Attributes"))],
                                  G.EndCRLF)

  function Records(rows: seq<FileRow>): seq<G.Record>
    requires forall i :: 0 <= i < |rows| ==> Representable(rows[i])
  {
    [HEADER_RECORD] + seq(|rows|, i requires 0 <= i < |rows| => RowRecord(rows[i]))
  }

  lemma RenderFour(a: G.Field, b: G.Field, c: G.Field, d: G.Field)
    ensures G.RenderFields([a, b, c, d])
      == G.RenderField(a) + [COMMA] + G.RenderField(b) + [COMMA] + G.RenderField(c) + [COMMA] + G.RenderField(d)
  {
    var fs := [a, b, c, d];
    assert fs[..3] == [a, b, c] && [a, b, c][..2] == [a, b] && [a, b][..1] == [a] && [a][..0] == [];
    assert G.RenderLeading([]) == [];
    assert G.RenderLeading([a]) == G.RenderField(a) + [COMMA];
    assert G.RenderLeading([a, b]) == G.RenderField(a) + [COMMA] + G.RenderField(b) + [COMMA];
  }

  lemma RowRendered(r: FileRow)
    requires Representable(r)
    ensures G.RenderFields(RowRecord(r).fields) + G.RenderEnd(G.EndCRLF) ==
              RowText(r.path, r.size, FileTime(r.modified).value, r.isDir)
  {
    var fs := RowRecord(r).fields;
    RenderFour(fs[0], fs[1], fs[2], fs[3]);
  }

  lemma HeaderRendered()
    ensures G.RenderFields(HEADER_RECORD.fields) + G.RenderEnd(G.EndCRLF) == HEADER
  {
    var fs := HEADER_RECORD.fields;
    RenderFour(fs[0], fs[1], fs[2], fs[3]);
  }

  lemma RecordsNext(rows: seq<FileRow>)
    requires rows != [] && forall i :: 0 <= i < |rows| ==> Representable(rows[i])
    ensures Records(rows) == Records(rows[..|rows| - 1]) + [RowRecord(rows[|rows| - 1])]
  {
  }

  lemma OnlyHeader()
    ensures G.RenderRecords([HEADER_RECORD]) == HEADER
  {
    HeaderRendered();
    assert [HEADER_RECORD][..0] == [];
    assert G.RenderRecords([]) == [];
    var header := G.RenderFields(HEADER_RECORD.fields);
    assert [] + header == header;
  }

  lemma {:induction false} ExportRendered(rows: seq<FileRow>)
    requires forall i :: 0 <= i < |rows| ==> Representable(rows[i])
    ensures G.RenderRecords(Records(rows)) == Exported(rows)
    decreases |rows|
  {
    if rows == [] {
      OnlyHeader();
      assert Records(rows) == [HEADER_RECORD];
    } else {
      var before, r := rows[..|rows| - 1], rows[|rows| - 1];
      ExportRendered(before);
      RecordsNext(rows);
      assert Representable(r);
      NextRendered(Records(before), r, Exported(before));
    }
  }

  lemma NextRendered(before: seq<G.Record>, r: FileRow, text: Bytes)
    requires Representable(r) && G.RenderRecords(before) == text
    ensures G.RenderRecords(before + [RowRecord(r)]) ==
              text + RowText(r.path, r.size, FileTime(r.modified).value, r.isDir)
  {
    G.AddRecordRender(before, RowRecord(r));
    RowRendered(r);
    var fields, end := G.RenderFields(RowRecord(r).fields), G.RenderEnd(G.EndCRLF);
    assert text + fields + end == text + (fields + end);
  }

  /** The limits of the importer, with any decoder that knows ASCII. */
  function DefaultLimits(decodes: Bytes -> bool): Limits {
    Limits(1024 * 1024 * 1024, 2_000_001, 64 * 1024, 1024 * 1024, 256, decodes)
  }

  ghost predicate DecodesAscii(decodes: Bytes -> bool) {
    forall text: Bytes :: (forall i :: 0 <= i < |text| ==> text[i] < 128) ==> decodes(text)
  }

  /** What a list of rows must satisfy to be within the importer's limits. */
  ghost predicate Listable(rows: seq<FileRow>, decodes: Bytes -> bool) {
    && |rows| <= 2_000_000
    && forall i :: 0 <= i < |rows| ==> RowListable(rows[i], decodes)
  }

  predicate RowListable(r: FileRow, decodes: Bytes -> bool) {
    Representable(r) && r.path != [] && |r.path| <= 64 * 1024 && decodes(r.path)
  }

  lemma NumberOk(l: Limits, n: nat)
    requires DecodesAscii(l.decodes) && n <= UINT64_MAX && l.fieldBytes >= 20
    ensures G.FieldOk(l, G.Plain(Decimal(n))) && |Decimal(n)| <= 20
  {
    DecimalDigits(n);
    PowerTwenty();
    DecimalLength(n, 20);
  }

  lemma PowerTwenty()
    ensures Power10(20) > UINT64_MAX
  {
    assert Power10(10) == 10_000_000_000 by {
      assert Power10(5) == 100_000;
    }
    assert Power10(15) == 1_000_000_000_000_000;
    assert Power10(20) == 100_000_000_000_000_000_000;
  }

  lemma {:induction false} EscapeLength(text: Bytes)
    ensures |G.Escape(text)| <= 2 * |text|
  {
    if text != [] { EscapeLength(text[1..]); }
  }

  lemma FourOk(l: Limits, a: G.Field, b: G.Field, c: G.Field, d: G.Field)
    requires G.FieldOk(l, a) && G.FieldOk(l, b) && G.FieldOk(l, c) && G.FieldOk(l, d) && l.columns >= 4
    requires |G.RenderField(a)| + |G.RenderField(b)| + |G.RenderField(c)| + |G.RenderField(d)| + 3 < l.recordBytes
    ensures G.RecordOk(l, G.Record([a, b, c, d], G.EndCRLF))
  {
    RenderFour(a, b, c, d);
  }

  lemma RowRecordOk(r: FileRow, decodes: Bytes -> bool)
    requires DecodesAscii(decodes) && RowListable(r, decodes)
    ensures G.RecordOk(DefaultLimits(decodes), RowRecord(r))
  {
    var l := DefaultLimits(decodes);
    var fs := RowRecord(r).fields;
    NumberOk(l, r.size);
    TimeRange(r.modified);
    NumberOk(l, FileTime(r.modified).value);
    NumberOk(l, Attributes(r.isDir));
    EscapeLength(r.path);
    FourOk(l, fs[0], fs[1], fs[2], fs[3]);
  }

  lemma NamesOk(l: Limits)
    requires DecodesAscii(l.decodes) && l.fieldBytes >= 20
    ensures G.FieldOk(l, G.Plain(Ascii("Filename"))) && G.FieldOk(l, G.Plain(Ascii("Size")))
    ensures G.FieldOk(l, G.Plain(Ascii("Date Modified"))) && G.FieldOk(l, G.Plain(Ascii("Attributes")))
  {
    AsciiOk(l, "Filename");
    AsciiOk(l, "Size");
    AsciiOk(l, "Date Modified");
    AsciiOk(l, "Attributes");
  }

  lemma HeaderOk(l: Limits)
    requires DecodesAscii(l.decodes) && l.fieldBytes >= 20 && l.columns >= 4 && l.recordBytes >= 64
    ensures G.RecordOk(l, HEADER_RECORD)
  {
    NamesOk(l);
    FourOk(l, G.Plain(Ascii("Filename")), G.Plain(Ascii("Size")), G.Plain(Ascii("Date Modified")),
        G.Plain(Ascii("Attributes")));
  }

  lemma AsciiOk(l: Limits, s: string)
    requires DecodesAscii(l.decodes) && |s| <= l.fieldBytes
    requires forall i :: 0 <= i < |s| ==> s[i] < 128 as char && s[i] !in {'"', ',', '\r', '\n'}
    ensures G.FieldOk(l, G.Plain(Ascii(s)))
  {
    var text := Ascii(s);
    assert forall i :: 0 <= i < |text| ==> text[i] < 128 && !G.Special(text[i]);
  }

  lemma RecordsIndex(rows: seq<FileRow>, i: nat)
    requires (forall j :: 0 <= j < |rows| ==> Representable(rows[j])) && 0 < i <= |rows|
    ensures Records(rows)[i] == RowRecord(rows[i - 1])
  {
  }

  lemma RecordAt(rows: seq<FileRow>, decodes: Bytes -> bool, i: nat)
    requires DecodesAscii(decodes) && Listable(rows, decodes) && i <= |rows|
    ensures G.RecordOk(DefaultLimits(decodes), Records(rows)[i]) && Records(rows)[i].end == G.EndCRLF
  {
    if i == 0 {
      HeaderOk(DefaultLimits(decodes));
    } else {
      var r := rows[i - 1];
      assert RowListable(r, decodes);
      RowRecordOk(r, decodes);
      RecordsIndex(rows, i);
      assert RowRecord(r).end == G.EndCRLF;
    }
  }

  lemma AllCRLF(l: Limits, rs: seq<G.Record>)
    requires forall i :: 0 <= i < |rs| ==> G.RecordOk(l, rs[i]) && rs[i].end == G.EndCRLF
    requires |rs| <= l.rows
    ensures G.FileOk(l, G.File(rs, []))
  {
    assert |G.Values(G.File(rs, []))| == |rs|;
  }

  lemma RecordsOk(rows: seq<FileRow>, decodes: Bytes -> bool)
    requires DecodesAscii(decodes) && Listable(rows, decodes)
    ensures G.FileOk(DefaultLimits(decodes), G.File(Records(rows), []))
  {
    forall i | 0 <= i < |Records(rows)|
      ensures G.RecordOk(DefaultLimits(decodes), Records(rows)[i]) && Records(rows)[i].end == G.EndCRLF
    {
      RecordAt(rows, decodes, i);
    }
    AllCRLF(DefaultLimits(decodes), Records(rows));
  }

  /** Parsing an export gives back the header and the rows, in order. */
  lemma ExportParses(rows: seq<FileRow>, decodes: Bytes -> bool)
    requires DecodesAscii(decodes) && Listable(rows, decodes)
    ensures var parsed := Parse(DefaultLimits(decodes), Exported(rows));
      parsed.failed.None? && parsed.emitted == G.RowsOf(Records(rows))
  {
    RecordsOk(rows, decodes);
    ExportRendered(rows);
    ExportStart(rows);
    var f := G.File(Records(rows), []);
    assert G.RenderFields([]) == [] && Exported(rows) + [] == Exported(rows);
    assert G.Values(f) == G.RowsOf(Records(rows)) + [];
    G.Complete(DefaultLimits(decodes), Exported(rows), f);
  }

  lemma {:induction false} ExportStart(rows: seq<FileRow>)
    requires forall i :: 0 <= i < |rows| ==> Representable(rows[i])
    ensures |Exported(rows)| > 0 && Exported(rows)[0] == 70 && StripMark(Exported(rows)) == Exported(rows)
    decreases |rows|
  {
    if rows != [] { ExportStart(rows[..|rows| - 1]); } else { assert Ascii("Filename")[0] == 70; }
    assert |Exported(rows)| >= 3 ==> Exported(rows)[..3][0] == 70;
  }

  /** What import makes of one exported row. */
  function Recovered(r: FileRow): FileRow
    requires Representable(r)
  {
    r.(modified := Modified(FileTime(r.modified).value))
  }

  const COLUMNS := Columns(0, Some(1), Some(2), Some(3))

  lemma RowImported(r: FileRow)
    requires Representable(r) && r.path != []
    ensures ImportRow(COLUMNS, G.Texts(RowRecord(r).fields)) == [Recovered(r)]
  {
    var record := G.Texts(RowRecord(r).fields);
    DecimalInteger(r.size, 0, UINT64_MAX);
    TimeRange(r.modified);
    DecimalInteger(FileTime(r.modified).value, -INT64_MAX - 1, INT64_MAX);
    DecimalInteger(Attributes(r.isDir), 0, UINT64_MAX);
    assert record[0] == r.path && record[1] == Decimal(r.size);
    assert record[2] == Decimal(FileTime(r.modified).value) && record[3] == Decimal(Attributes(r.isDir));
  }

  lemma {:induction false} ColumnAt(record: Row, name: Bytes, other: Bytes, k: nat)
    requires k < |record| && Lower(record[k]) == name
    requires forall j :: 0 <= j < k ==> Lower(record[j]) != name && Lower(record[j]) != other
    ensures ColumnOf(record, name, other) == Some(k)
    decreases k
  {
    if k > 0 {
      assert forall j :: 0 <= j < k - 1 ==> record[1..][j] == record[j + 1];
      ColumnAt(record[1..], name, other, k - 1);
    }
  }

  lemma LowerNames()
    ensures Lower(Ascii("Filename")) == Ascii("filename")
    ensures Lower(Ascii("Size")) == Ascii("size")
    ensures Lower(Ascii("Date Modified")) == Ascii("date modified")
    ensures Lower(Ascii("Attributes")) == Ascii("attributes")
  {
  }

  lemma HeaderImported()
    ensures Header(G.Texts(HEADER_RECORD.fields)) == Some(COLUMNS)
  {
    var record := G.Texts(HEADER_RECORD.fields);
    LowerNames();
    assert record == [Ascii("Filename"), Ascii("Size"), Ascii("Date Modified"), Ascii("Attributes")];
    assert Ascii("filename")[0] == 102 && Ascii("modified")[0] == 109;
    ColumnAt(record, Ascii("filename"), Ascii("path"), 0);
    ColumnAt(record, Ascii("size"), Ascii("size"), 1);
    ColumnAt(record, Ascii("date modified"), Ascii("modified"), 2);
    ColumnAt(record, Ascii("attributes"), Ascii("attributes"), 3);
  }

  /** The fields of an exported row, as the reader hands them on. */
  function RowTexts(r: FileRow): Row
    requires Representable(r)
  {
    G.Texts(RowRecord(r).fields)
  }

  function AllTexts(rows: seq<FileRow>): seq<Row>
    requires forall i :: 0 <= i < |rows| ==> Representable(rows[i])
  {
    seq(|rows|, i requires 0 <= i < |rows| => RowTexts(rows[i]))
  }

  function AllRecovered(rows: seq<FileRow>): seq<FileRow>
    requires forall i :: 0 <= i < |rows| ==> Representable(rows[i])
  {
    seq(|rows|, i requires 0 <= i < |rows| => Recovered(rows[i]))
  }

  lemma {:induction false} RowsImported(rows: seq<FileRow>)
    requires forall i :: 0 <= i < |rows| ==> Representable(rows[i])
    requires forall i :: 0 <= i < |rows| ==> rows[i].path != []
    ensures ImportRows(COLUMNS, AllTexts(rows)) == AllRecovered(rows)
    decreases |rows|
  {
    hide ImportRow, Recovered, FileTime;
    if rows != [] {
      var r, rest := rows[0], rows[1..];
      assert Representable(r);
      RowImported(r);
      RowsImported(rest);
      TextsCons(r, rest, rows);
      ImportCons(RowTexts(r), AllTexts(rest), AllTexts(rows), [Recovered(r)]);
    }
  }

  lemma TextsCons(r: FileRow, rest: seq<FileRow>, rows: seq<FileRow>)
    requires rows == [r] + rest && Representable(r)
    requires forall i :: 0 <= i < |rest| ==> Representable(rest[i])
    ensures forall i :: 0 <= i < |rows| ==> Representable(rows[i])
    ensures AllTexts(rows) == [RowTexts(r)] + AllTexts(rest)
            && AllRecovered(rows) == [Recovered(r)] + AllRecovered(rest)
  {
  }

  lemma ImportCons(record: Row, rest: seq<Row>, records: seq<Row>, imported: seq<FileRow>)
    requires records == [record] + rest && ImportRow(COLUMNS, record) == imported
    ensures ImportRows(COLUMNS, records) == imported + ImportRows(COLUMNS, rest)
  {
    assert records[1..] == rest;
  }

  lemma RecordTexts(rows: seq<FileRow>)
    requires forall i :: 0 <= i < |rows| ==> Representable(rows[i])
    ensures G.RowsOf(Records(rows)) == [G.Texts(HEADER_RECORD.fields)] + AllTexts(rows)
  {
  }

  lemma ImportedCons(header: Row, rest: seq<Row>)
    requires Header(header) == Some(COLUMNS)
    ensures Imported([header] + rest) == Some(ImportRows(COLUMNS, rest))
  {
    assert ([header] + rest)[1..] == rest;
  }

  /** Importing an exported list gives back every row: path, size and directory flag
      always, and the time exactly when it lies beyond the import threshold. */
  lemma ImportUndoesExport(rows: seq<FileRow>, decodes: Bytes -> bool)
    requires DecodesAscii(decodes) && Listable(rows, decodes)
    ensures Imported(Parse(DefaultLimits(decodes), Exported(rows)).emitted) == Some(AllRecovered(rows))
  {
    assert forall i :: 0 <= i < |rows| ==> RowListable(rows[i], decodes);
    ExportParses(rows, decodes);
    RecordTexts(rows);
    HeaderImported();
    ImportedCons(G.Texts(HEADER_RECORD.fields), AllTexts(rows));
    RowsImported(rows);
  }

  /** The rows come back unchanged exactly when every time lies beyond the threshold. */
  lemma RecoveredExactly(rows: seq<FileRow>)
    requires forall i :: 0 <= i < |rows| ==> Representable(rows[i])
    ensures AllRecovered(rows) == rows <==> forall i :: 0 <= i < |rows| ==> rows[i].modified > -11_644_463_600
  {
    var back := AllRecovered(rows);
    forall i | 0 <= i < |rows| ensures back[i] == rows[i] <==> rows[i].modified > -11_644_463_600 {
      assert Representable(rows[i]);
      TimeRecovered(rows[i].modified);
    }
  }

  /** Importing an exported file that stays as it is, cut into chunks in any way, lists every row again, and it
    * lists exactly the exported rows if and only if every time lies beyond the threshold. */
  method Reimport(rows: seq<FileRow>, chunks: seq<Bytes>, decodes: Bytes -> bool) returns (outcome: Outcome)
    requires DecodesAscii(decodes) && Listable(rows, decodes)
    requires Concat(chunks) == Exported(rows) && |Exported(rows)| <= DefaultLimits(decodes).bytes
    ensures outcome == Listed(AllRecovered(rows))
    ensures outcome == Listed(rows) <==> forall i :: 0 <= i < |rows| ==> rows[i].modified > -11_644_463_600
  {
    hide Parse, Imported, AllRecovered, Exported;
    ExportOutcome(rows, decodes);
    RecoveredExactly(rows);
    outcome := Import(DefaultLimits(decodes), |Exported(rows)|, chunks, false);
  }

  lemma ExportOutcome(rows: seq<FileRow>, decodes: Bytes -> bool)
    requires DecodesAscii(decodes) && Listable(rows, decodes)
    ensures OutcomeOf(Parse(DefaultLimits(decodes), Exported(rows)), false) == Listed(AllRecovered(rows))
  {
    hide Parse, Exported, AllRecovered, ImportRows;
    ExportParses(rows, decodes);
    ImportUndoesExport(rows, decodes);
  }

  /** A row whose time is lost: its file time is small enough to be taken for seconds. */
  lemma LostTime()
    ensures var row := FileRow([47], 0, -11_644_463_600, false);
            Representable(row) && Recovered(row) == FileRow([47], 0, 100_000_000_000, false)
  {
  }
}
