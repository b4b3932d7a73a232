/** The language the CSV reader accepts, as derivations that can be rendered back
    to bytes: the reader succeeds on an input exactly when the input renders some
    derivation within the limits, and then hands on that derivation's values. */
module CsvGrammar {
  import opened Common
  import opened CsvReader

  datatype Field = Plain(text: Bytes) | Quoted(text: Bytes)

  datatype Terminator = EndCRLF | EndCR | EndLF

  datatype Record = Record(fields: seq<Field>, end: Terminator)

  /** Terminated records, and the fields of an unterminated last one, or none. */
  datatype File = File(records: seq<Record>, last: seq<Field>)

  // ---------- Rendering ----------

  function Escape(text: Bytes): Bytes {
    if text == [] then [] else (if text[0] == QUOTE then [QUOTE, QUOTE] else [text[0]]) + Escape(text[1..])
  }

  function RenderField(f: Field): Bytes {
    match f
    case Plain(text) => text
    case Quoted(text) => [QUOTE] + Escape(text) + [QUOTE]
  }

  /** Fields, each followed by a comma. */
  function RenderLeading(fs: seq<Field>): Bytes {
    if fs == [] then [] else RenderLeading(fs[..|fs| - 1]) + RenderField(fs[|fs| - 1]) + [COMMA]
  }

  function RenderFields(fs: seq<Field>): Bytes {
    if fs == [] then [] else RenderLeading(fs[..|fs| - 1]) + RenderField(fs[|fs| - 1])
  }

  function RenderEnd(t: Terminator): Bytes {
    match t
    case EndCRLF => [CR, LF]
    case EndCR => [CR]
    case EndLF => [LF]
  }

  function RenderRecords(rs: seq<Record>): Bytes {
    if rs == [] then []
    else RenderRecords(rs[..|rs| - 1]) + RenderFields(rs[|rs| - 1].fields) + RenderEnd(rs[|rs| - 1].end)
  }

  function Render(f: File): Bytes {
    RenderRecords(f.records) + RenderFields(f.last)
  }

  // ---------- Values ----------

  function Texts(fs: seq<Field>): Row {
    seq(|fs|, i requires 0 <= i < |fs| => fs[i].text)
  }

  function RowsOf(rs: seq<Record>): seq<Row> {
    seq(|rs|, i requires 0 <= i < |rs| => Texts(rs[i].fields))
  }

  function Values(f: File): seq<Row> {
    RowsOf(f.records) + (if f.last == [] then [] else [Texts(f.last)])
  }

  // ---------- Which derivations are meant ----------

  predicate Special(b: byte) {
    b == QUOTE || b == COMMA || b == LF || b == CR
  }

  predicate PlainText(text: Bytes) {
    forall i :: 0 <= i < |text| ==> !Special(text[i])
  }

  predicate FieldOk(l: Limits, f: Field) {
    (f.Plain? ==> PlainText(f.text)) && |f.text| <= l.fieldBytes && l.decodes(f.text)
  }

  predicate FieldsOk(l: Limits, fs: seq<Field>) {
    fs != [] && |fs| <= l.columns && forall i :: 0 <= i < |fs| ==> FieldOk(l, fs[i])
  }

  predicate RecordOk(l: Limits, r: Record) {
    FieldsOk(l, r.fields) && |RenderFields(r.fields)| < l.recordBytes
  }

  predicate Blank(r: Record) {
    r.end == EndLF && r.fields == [Plain([])]
  }

  /** A bare CR is not followed by a blank record ending in LF: those two bytes are
      one terminator. */
  ghost predicate NoFalseCRLF(rs: seq<Record>) {
    forall i, j :: 0 <= i < j < |rs| && j == i + 1 && rs[i].end == EndCR ==> !Blank(rs[j])
  }

  ghost predicate RecordsOk(l: Limits, rs: seq<Record>) {
    (forall i :: 0 <= i < |rs| ==> RecordOk(l, rs[i])) && NoFalseCRLF(rs)
  }

  ghost predicate FileOk(l: Limits, f: File) {
    && RecordsOk(l, f.records)
    && (f.last != [] ==> FieldsOk(l, f.last) && f.last != [Plain([])] && |RenderFields(f.last)| <= l.recordBytes)
    && |Values(f)| <= l.rows
  }

  // ---------- Acceptance implies a derivation ----------

  /** The text of the field being read, as it has been written so far. */
  function Partial(s: State): Bytes {
    if s.quoted then [QUOTE] + Escape(s.field)
    else if s.afterQuote then [QUOTE] + Escape(s.field) + [QUOTE]
    else s.field
  }

  /** The reader's state reflects the complete records of a derivation. */
  ghost predicate ReflectsRecords(l: Limits, s: State, records: seq<Record>) {
    && s.emitted == RowsOf(records) && s.rows == |records| <= l.rows
    && RecordsOk(l, records)
    && (s.skipLF <==> records != [] && records[|records| - 1].end == EndCR && s.recordBytes == 0)
  }

  /** ... and the complete fields of the current record. */
  ghost predicate ReflectsFields(l: Limits, s: State, fields: seq<Field>) {
    && s.row == Texts(fields) && |fields| <= l.columns
    && (forall i :: 0 <= i < |fields| ==> FieldOk(l, fields[i]))
  }

  /** ... and the field being read. */
  ghost predicate ReflectsField(l: Limits, s: State) {
    && |s.field| <= l.fieldBytes
    && !(s.quoted && s.afterQuote)
    && (!s.quoted && !s.afterQuote ==> PlainText(s.field))
    && (s.quoted || s.afterQuote ==> s.pending)
  }

  /** The reader's state reflects the derivation of `records`, then the complete
      `fields` of the current record, then the field it is in. */
  ghost predicate Reflects(l: Limits, s: State, records: seq<Record>, fields: seq<Field>) {
    && s.failed.None?
    && ReflectsRecords(l, s, records) && ReflectsFields(l, s, fields) && ReflectsField(l, s)
    && s.recordBytes == |RenderLeading(fields) + Partial(s)| <= l.recordBytes
    && (s.pending <==> s.recordBytes > 0)
  }

  function Text(s: State, records: seq<Record>, fields: seq<Field>): Bytes {
    RenderRecords(records) + (RenderLeading(fields) + Partial(s))
  }

  lemma {:induction false} EscapeAppend(x: Bytes, y: Bytes)
    ensures Escape(x + y) == Escape(x) + Escape(y)
  {
    if x == [] {
      assert x + y == y;
    } else {
      assert (x + y)[1..] == x[1..] + y;
      EscapeAppend(x[1..], y);
    }
  }

  lemma EscapeOne(b: byte)
    ensures Escape([b]) == if b == QUOTE then [QUOTE, QUOTE] else [b]
  {
    assert [b][1..] == [];
    assert Escape([]) == [];
  }

  /** The field the reader is in, once it is complete. */
  function Current(s: State): Field {
    if s.afterQuote then Quoted(s.field) else Plain(s.field)
  }

  /** What a step that stays within the field does. */
  ghost predicate FieldStep(l: Limits, s: State, n: State, b: byte) {
    && n == s.(
              field := n.field, quoted := n.quoted, afterQuote := n.afterQuote, skipLF := false, pending := true,
              recordBytes := s.recordBytes + 1)
    && Partial(n) == Partial(s) + [b]
    && ReflectsField(l, n)
  }

  lemma InsideQuotes(l: Limits, s: State, b: byte)
    requires s.failed.None? && ReflectsField(l, s) && s.recordBytes < l.recordBytes && !(s.skipLF && b == LF)
    requires s.quoted && Step(l, s, b).failed.None?
    ensures FieldStep(l, s, Step(l, s, b), b)
  {
    EscapeAppend(s.field, [b]);
    EscapeOne(b);
    assert [QUOTE] + (Escape(s.field) + [b]) == [QUOTE] + Escape(s.field) + [b];
  }

  lemma AfterQuote(l: Limits, s: State, b: byte)
    requires s.failed.None? && ReflectsField(l, s) && s.recordBytes < l.recordBytes && !(s.skipLF && b == LF)
    requires s.afterQuote && b != COMMA && b != LF && b != CR && Step(l, s, b).failed.None?
    ensures FieldStep(l, s, Step(l, s, b), b)
  {
    EscapeAppend(s.field, [b]);
    EscapeOne(b);
    assert [QUOTE] + (Escape(s.field) + [QUOTE, QUOTE]) == [QUOTE] + Escape(s.field) + [QUOTE] + [QUOTE];
  }

  lemma OutsideQuotes(l: Limits, s: State, b: byte)
    requires s.failed.None? && ReflectsField(l, s) && s.recordBytes < l.recordBytes && !(s.skipLF && b == LF)
    requires !s.quoted && !s.afterQuote && b != COMMA && b != LF && b != CR && Step(l, s, b).failed.None?
    ensures FieldStep(l, s, Step(l, s, b), b)
  {
    if b == QUOTE {
      assert Escape([]) == [];
      assert [QUOTE] + [] == [] + [QUOTE];
    }
  }

  /** Bytes that stay within the field. */
  lemma WithinField(l: Limits, s: State, b: byte, n: State, records: seq<Record>, fields: seq<Field>)
    requires Reflects(l, s, records, fields) && s.recordBytes < l.recordBytes && FieldStep(l, s, n, b)
    ensures Reflects(l, n, records, fields) && Text(n, records, fields) == Text(s, records, fields) + [b]
  {
    assert RenderLeading(fields) + Partial(n) == (RenderLeading(fields) + Partial(s)) + [b];
  }

  /** A comma completes a field. */
  lemma AtComma(l: Limits, s: State, n: State, records: seq<Record>, fields: seq<Field>)
    requires Reflects(l, s, records, fields) && s.recordBytes < l.recordBytes && !s.quoted
    requires |s.row| < l.columns && l.decodes(s.field)
    requires n == s.(
               row := s.row + [s.field], field := [], afterQuote := false, skipLF := false, pending := true,
               recordBytes := s.recordBytes + 1)
    ensures var more := fields + [Current(s)];
      Reflects(l, n, records, more) && Text(n, records, more) == Text(s, records, fields) + [COMMA]
  {
    hide RenderRecords, RecordsOk, RowsOf, Escape;
    var more := fields + [Current(s)];
    assert more[..|more| - 1] == fields;
    assert Texts(more) == Texts(fields) + [s.field];
    assert Partial(s) == RenderField(Current(s));
    assert RenderLeading(more) + Partial(n) == (RenderLeading(fields) + Partial(s)) + [COMMA];
  }

  lemma CommaStep(l: Limits, s: State)
    requires s.failed.None? && !s.quoted && Step(l, s, COMMA).failed.None?
    ensures s.recordBytes < l.recordBytes && |s.row| < l.columns && l.decodes(s.field)
    ensures Step(l, s, COMMA)
      == s.(
           row := s.row + [s.field], field := [], afterQuote := false, skipLF := false, pending := true,
           recordBytes := s.recordBytes + 1)
  {
  }

  lemma AddRecordOk(l: Limits, records: seq<Record>, r: Record)
    requires RecordsOk(l, records) && RecordOk(l, r)
    requires records != [] && records[|records| - 1].end == EndCR ==> !Blank(r)
    ensures RecordsOk(l, records + [r])
  {
  }

  lemma AddRecordRender(records: seq<Record>, r: Record)
    ensures RenderRecords(records + [r]) == RenderRecords(records) + RenderFields(r.fields) + RenderEnd(r.end)
  {
    assert (records + [r])[..|records|] == records;
  }

  lemma AddRecordRows(records: seq<Record>, r: Record)
    ensures RowsOf(records + [r]) == RowsOf(records) + [Texts(r.fields)]
  {
  }

  lemma TurnedOk(l: Limits, records: seq<Record>)
    requires RecordsOk(l, records) && records != [] && records[|records| - 1].end == EndCR
    ensures RecordsOk(l, WithCRLF(records))
  {
  }

  lemma TurnedRows(records: seq<Record>)
    requires records != []
    ensures RowsOf(WithCRLF(records)) == RowsOf(records)
  {
  }

  lemma TurnedRender(front: seq<Record>, last: Record, crlf: Record)
    requires last.end == EndCR && crlf == Record(last.fields, EndCRLF)
    ensures RenderRecords(front + [crlf]) == RenderRecords(front + [last]) + [LF]
  {
    AddRecordRender(front, last);
    AddRecordRender(front, crlf);
    Regroup(RenderRecords(front) + RenderFields(last.fields));
  }

  lemma Regroup(x: Bytes)
    ensures x + [CR, LF] == x + [CR] + [LF]
  {
  }

  function WithCRLF(records: seq<Record>): seq<Record>
    requires records != []
  {
    records[|records| - 1 := records[|records| - 1].(end := EndCRLF)]
  }

  /** CR or LF completes a record. */
  lemma AtTerminator(l: Limits, s: State, n: State, b: byte, records: seq<Record>, fields: seq<Field>)
    requires Reflects(l, s, records, fields) && s.recordBytes < l.recordBytes && !s.quoted && !(s.skipLF && b == LF)
    requires (b == CR || b == LF) && |s.row| < l.columns && l.decodes(s.field) && s.rows < l.rows
    requires n == AfterRow(s, b)
    ensures var more := records + [Record(fields + [Current(s)], if b == CR then EndCR else EndLF)];
      Reflects(l, n, more, []) && Text(n, more, []) == Text(s, records, fields) + [b]
  {
    var fs := fields + [Current(s)];
    var r := Record(fs, if b == CR then EndCR else EndLF);
    CompleteFields(l, s, fields);
    if Blank(r) { BlankFields(fs); }
    RecordDone(l, s, n, b, records, r);
    assert Text(n, records + [r], []) == RenderRecords(records) + (RenderLeading(fields) + Partial(s)) + [b];
  }

  lemma RecordDone(l: Limits, s: State, n: State, b: byte, records: seq<Record>, r: Record)
    requires ReflectsRecords(l, s, records) && n == AfterRow(s, b) && s.rows < l.rows && RecordOk(l, r)
    requires (b == CR || b == LF) && r.end == (if b == CR then EndCR else EndLF) && Texts(r.fields) == s.row + [s.field]
    requires Blank(r) ==> !s.skipLF && s.recordBytes == 0
    ensures Reflects(l, n, records + [r], []) && RenderLeading([]) + Partial(n) == []
    ensures RenderRecords(records + [r]) == RenderRecords(records) + RenderFields(r.fields) + [b]
  {
    AddRecordOk(l, records, r);
    AddRecordRender(records, r);
    AddRecordRows(records, r);
  }

  lemma BlankFields(fs: seq<Field>)
    requires fs == [Plain([])]
    ensures RenderFields(fs) == []
  {
    assert RenderLeading(fs[..0]) == [];
  }

  function AfterRow(s: State, b: byte): State {
    State([], [], false, false, b == CR, false, 0, s.rows + 1, s.emitted + [s.row + [s.field]], None)
  }

  lemma TerminatorStep(l: Limits, s: State, b: byte)
    requires s.failed.None? && !s.quoted && Step(l, s, b).failed.None? && !(s.skipLF && b == LF) && (b == CR || b == LF)
    ensures s.recordBytes < l.recordBytes && |s.row| < l.columns && l.decodes(s.field) && s.rows < l.rows
    ensures Step(l, s, b) == AfterRow(s, b)
  {
  }

  /** The fields of a record once the one being read is complete. */
  lemma CompleteFields(l: Limits, s: State, fields: seq<Field>)
    requires ReflectsFields(l, s, fields) && ReflectsField(l, s) && !s.quoted
    requires |s.row| < l.columns && l.decodes(s.field)
    ensures var fs := fields + [Current(s)];
      FieldsOk(l, fs) && Texts(fs) == s.row + [s.field] && RenderFields(fs) == RenderLeading(fields) + Partial(s)
  {
    var fs := fields + [Current(s)];
    assert fs[..|fs| - 1] == fields;
    assert Partial(s) == RenderField(Current(s));
  }

  /** An LF right after a CR turns that terminator into CRLF. */
  lemma AfterCR(l: Limits, s: State, n: State, records: seq<Record>, fields: seq<Field>)
    requires Reflects(l, s, records, fields) && s.skipLF && n == s.(skipLF := false)
    ensures records != []
    ensures Reflects(l, n, WithCRLF(records), fields)
            && Text(n, WithCRLF(records), fields) == Text(s, records, fields) + [LF]
  {
    TurnedOk(l, records);
    TurnedRows(records);
    var front, last := records[..|records| - 1], records[|records| - 1];
    assert front + [last] == records && front + [Record(last.fields, EndCRLF)] == WithCRLF(records);
    TurnedRender(front, last, Record(last.fields, EndCRLF));
    assert Partial(n) == Partial(s);
    assert RenderLeading(fields) + Partial(s) == [];
  }

  /** Some derivation is reflected after every accepted prefix. */
  lemma {:induction false} RunReflects(l: Limits, input: Bytes) returns (records: seq<Record>, fields: seq<Field>)
    requires Run(l, START, input).failed.None?
    ensures var s := Run(l, START, input); Reflects(l, s, records, fields) && Text(s, records, fields) == input
    decreases |input|
  {
    if input == [] {
      records, fields := [], [];
    } else {
      var before, b := input[..|input| - 1], input[|input| - 1];
      assert input == before + [b];
      RunAppend(l, START, before, [b]);
      var s := Run(l, START, before);
      RunOne(l, s, b);
      records, fields := RunReflects(l, before);
      if s.skipLF && b == LF {
        AfterCR(l, s, Step(l, s, b), records, fields);
        records := WithCRLF(records);
      } else if s.quoted {
        InsideQuotes(l, s, b);
        WithinField(l, s, b, Step(l, s, b), records, fields);
      } else if b == COMMA {
        CommaStep(l, s);
        AtComma(l, s, Step(l, s, b), records, fields);
        fields := fields + [Current(s)];
      } else if b == CR || b == LF {
        TerminatorStep(l, s, b);
        AtTerminator(l, s, Step(l, s, b), b, records, fields);
        records, fields := records + [Record(fields + [Current(s)], if b == CR then EndCR else EndLF)], [];
      } else {
        if s.afterQuote { AfterQuote(l, s, b); } else { OutsideQuotes(l, s, b); }
        WithinField(l, s, b, Step(l, s, b), records, fields);
      }
    }
  }

  /** What the reader accepts is in the language, and the rows are its values. */
  lemma Sound(l: Limits, input: Bytes) returns (f: File)
    requires Parse(l, input).failed.None?
    ensures FileOk(l, f) && Render(f) == StripMark(input) && Values(f) == Parse(l, input).emitted
  {
    var s := Run(l, START, StripMark(input));
    var records, fields := RunReflects(l, StripMark(input));
    if s.pending || s.row != [] || s.field != [] {
      CompleteFields(l, s, fields);
      f := File(records, fields + [Current(s)]);
    } else {
      f := File(records, []);
      assert RenderLeading(fields) + Partial(s) == [];
    }
  }

  // ---------- A derivation implies acceptance ----------

  ghost predicate Steady(s: State) {
    s.failed.None? && !s.skipLF
  }

  lemma {:induction false} RunQuotedText(l: Limits, s: State, text: Bytes)
    requires Steady(s) && s.quoted && !s.afterQuote
    requires |s.field| + |text| <= l.fieldBytes && s.recordBytes + |Escape(text)| <= l.recordBytes
    ensures Run(l, s, Escape(text)) == s.(field := s.field + text, recordBytes := s.recordBytes + |Escape(text)|)
    decreases |text|
  {
    if text == [] {
      assert s.field + text == s.field;
    } else {
      var b, rest := text[0], text[1..];
      var first := if b == QUOTE then [QUOTE, QUOTE] else [b];
      var n := s.(field := s.field + [b], recordBytes := s.recordBytes + |first|);
      OneQuotedByte(l, s, b);
      RunAppend(l, s, first, Escape(rest));
      RunQuotedText(l, n, rest);
      assert (s.field + [b]) + rest == s.field + text;
    }
  }

  lemma OneQuotedByte(l: Limits, s: State, b: byte)
    requires Steady(s) && s.quoted && !s.afterQuote
    requires |s.field| < l.fieldBytes && s.recordBytes + (if b == QUOTE then 2 else 1) <= l.recordBytes
    ensures b == QUOTE ==> Run(l, s, [QUOTE, QUOTE]) == s.(field := s.field + [b], recordBytes := s.recordBytes + 2)
    ensures b != QUOTE ==> Run(l, s, [b]) == s.(field := s.field + [b], recordBytes := s.recordBytes + 1)
  {
    RunOne(l, s, b);
    if b == QUOTE {
      assert [QUOTE, QUOTE] == [QUOTE] + [QUOTE];
      RunAppend(l, s, [QUOTE], [QUOTE]);
      RunOne(l, Step(l, s, QUOTE), QUOTE);
    }
  }

  lemma {:induction false} RunPlainText(l: Limits, s: State, text: Bytes)
    requires Steady(s) && !s.quoted && !s.afterQuote && PlainText(text)
    requires |s.field| + |text| <= l.fieldBytes && s.recordBytes + |text| <= l.recordBytes
    ensures Run(l, s, text) ==
              s.(field := s.field + text, recordBytes := s.recordBytes + |text|, pending := s.pending || text != [])
    decreases |text|
  {
    if text == [] {
      assert s.field + text == s.field;
    } else {
      assert !Special(text[0]);
      var n := s.(field := s.field + [text[0]], recordBytes := s.recordBytes + 1, pending := true);
      assert Step(l, s, text[0]) == n;
      RunPlainText(l, n, text[1..]);
      assert (s.field + [text[0]]) + text[1..] == s.field + text;
    }
  }

  /** The state once a field has been read from its first to its last byte. */
  function FieldRead(s: State, f: Field): State {
    s.(field := f.text, afterQuote := f.Quoted?, recordBytes := s.recordBytes + |RenderField(f)|,
       pending := s.pending || RenderField(f) != [])
  }

  lemma OpeningQuote(l: Limits, s: State)
    requires Steady(s) && !s.quoted && !s.afterQuote && s.field == [] && s.recordBytes < l.recordBytes
    ensures Run(l, s, [QUOTE]) == s.(quoted := true, pending := true, recordBytes := s.recordBytes + 1)
  {
    hide Append, EndField, EndRow;
    RunOne(l, s, QUOTE);
  }

  lemma ClosingQuote(l: Limits, s: State)
    requires Steady(s) && s.quoted && s.recordBytes < l.recordBytes
    ensures Run(l, s, [QUOTE]) == s.(quoted := false, afterQuote := true, recordBytes := s.recordBytes + 1)
  {
    hide Append, EndField, EndRow;
    RunOne(l, s, QUOTE);
  }

  lemma RunField(l: Limits, s: State, f: Field)
    requires Steady(s) && !s.quoted && !s.afterQuote && s.field == [] && FieldOk(l, f)
    requires s.recordBytes + |RenderField(f)| <= l.recordBytes
    ensures Run(l, s, RenderField(f)) == FieldRead(s, f)
  {
    hide Step, Run;
    match f
    case Plain(text) =>
      RunPlainText(l, s, text);
      assert [] + text == text;
    case Quoted(text) =>
      var inside := s.(quoted := true, pending := true, recordBytes := s.recordBytes + 1);
      OpeningQuote(l, s);
      RunAppend(l, s, [QUOTE], Escape(text) + [QUOTE]);
      assert RenderField(f) == [QUOTE] + (Escape(text) + [QUOTE]);
      RunQuotedText(l, inside, text);
      assert [] + text == text;
      RunAppend(l, inside, Escape(text), [QUOTE]);
      ClosingQuote(l, Run(l, inside, Escape(text)));
  }

  /** The state at the first byte of a record. */
  ghost predicate AtRecord(s: State) {
    Steady(s) && s.field == [] && s.row == [] && !s.quoted && !s.afterQuote && !s.pending && s.recordBytes == 0
  }

  lemma RunNothing(l: Limits, s: State)
    ensures Run(l, s, []) == s
  {
  }

  lemma FieldDecodes(l: Limits, f: Field)
    requires FieldOk(l, f)
    ensures l.decodes(f.text)
  {
  }

  lemma ClosingComma(l: Limits, s: State)
    requires Steady(s) && !s.quoted && |s.row| < l.columns && l.decodes(s.field) && s.recordBytes < l.recordBytes
    ensures Run(l, s, [COMMA]) == s.(row := s.row + [s.field], field := [], afterQuote := false, pending := true,
                                     recordBytes := s.recordBytes + 1)
  {
    hide Append, EndRow;
    RunOne(l, s, COMMA);
  }

  lemma OneLeading(l: Limits, s: State, f: Field)
    requires Steady(s) && !s.quoted && !s.afterQuote && s.field == [] && FieldOk(l, f) && |s.row| < l.columns
    requires s.recordBytes + |RenderField(f)| < l.recordBytes
    ensures Run(l, s, RenderField(f) + [COMMA])
         == s.(row := s.row + [f.text], pending := true, recordBytes := s.recordBytes + |RenderField(f)| + 1)
  {
    hide Step, Run, FieldOk, RenderField;
    FieldDecodes(l, f);
    RunField(l, s, f);
    RunAppend(l, s, RenderField(f), [COMMA]);
    ClosingComma(l, FieldRead(s, f));
  }

  lemma {:induction false} RunLeading(l: Limits, s: State, fs: seq<Field>)
    requires AtRecord(s) && |fs| <= l.columns && |RenderLeading(fs)| <= l.recordBytes
    requires forall i :: 0 <= i < |fs| ==> FieldOk(l, fs[i])
    ensures Run(l, s, RenderLeading(fs)) ==
              s.(row := Texts(fs), pending := fs != [], recordBytes := |RenderLeading(fs)|)
    decreases |fs|
  {
    hide Step, Run, FieldOk, RenderField;
    if fs == [] {
      RunNothing(l, s);
    } else {
      var before, f := fs[..|fs| - 1], fs[|fs| - 1];
      var text := RenderField(f) + [COMMA];
      assert RenderLeading(fs) == RenderLeading(before) + text;
      RunLeading(l, s, before);
      OneLeading(l, s.(row := Texts(before), pending := before != [], recordBytes := |RenderLeading(before)|), f);
      RunAppend(l, s, RenderLeading(before), text);
      assert Texts(fs) == Texts(before) + [f.text];
    }
  }

  /** The state once every byte of a record but its terminator has been read. */
  function FieldsRead(s: State, fs: seq<Field>): State
    requires fs != []
  {
    s.(row := Texts(fs[..|fs| - 1]), field := fs[|fs| - 1].text, afterQuote := fs[|fs| - 1].Quoted?,
       pending := RenderFields(fs) != [], recordBytes := |RenderFields(fs)|)
  }

  lemma RunFields(l: Limits, s: State, fs: seq<Field>)
    requires AtRecord(s) && FieldsOk(l, fs) && |RenderFields(fs)| <= l.recordBytes
    ensures Run(l, s, RenderFields(fs)) == FieldsRead(s, fs)
  {
    var before, f := fs[..|fs| - 1], fs[|fs| - 1];
    RunLeading(l, s, before);
    RunAppend(l, s, RenderLeading(before), RenderField(f));
    RunField(l, Run(l, s, RenderLeading(before)), f);
    if before != [] { LeadingNonempty(before); }
  }

  lemma LeadingNonempty(fs: seq<Field>)
    requires fs != []
    ensures RenderLeading(fs) != []
  {
  }

  /** Ending a record whose fields have been read. */
  lemma EndFields(l: Limits, s: State, fs: seq<Field>)
    requires AtRecord(s) && FieldsOk(l, fs) && s.rows < l.rows
    ensures EndRow(l, FieldsRead(s, fs)) == s.(rows := s.rows + 1, emitted := s.emitted + [Texts(fs)])
  {
    assert Texts(fs) == Texts(fs[..|fs| - 1]) + [fs[|fs| - 1].text];
  }

  lemma RunEnd(l: Limits, s: State, fs: seq<Field>, end: Terminator)
    requires AtRecord(s) && FieldsOk(l, fs) && s.rows < l.rows && |RenderFields(fs)| < l.recordBytes
    ensures Run(l, FieldsRead(s, fs), RenderEnd(end))
      == s.(rows := s.rows + 1, emitted := s.emitted + [Texts(fs)], skipLF := end == EndCR)
  {
    hide Append;
    var t := FieldsRead(s, fs);
    EndFields(l, s, fs);
    var counted := t.(recordBytes := t.recordBytes + 1);
    assert EndRow(l, counted) == EndRow(l, t);
    match end
    case EndLF => RunOne(l, t, LF);
    case EndCR => RunOne(l, t, CR);
    case EndCRLF =>
      RunOne(l, t, CR);
      RunAppend(l, t, [CR], [LF]);
      assert [CR, LF] == [CR] + [LF];
      RunOne(l, Step(l, t, CR), LF);
  }

  lemma StepSkip(l: Limits, s: State, t: State, b: byte)
    requires s.failed.None? && b != LF && t == s.(skipLF := false)
    ensures Step(l, s, b) == Step(l, t, b)
  {
    hide Body;
    assert t.(recordBytes := s.recordBytes + 1) == s.(skipLF := false, recordBytes := s.recordBytes + 1);
  }

  /** A pending CR changes nothing unless the next byte is LF. */
  lemma AfterSkip(l: Limits, s: State, input: Bytes)
    requires s.failed.None? && input != [] && input[0] != LF
    ensures Run(l, s, input) == Run(l, s.(skipLF := false), input)
  {
    var t := s.(skipLF := false);
    StepSkip(l, s, t, input[0]);
    RunCons(l, s, input);
    RunCons(l, t, input);
  }

  lemma RunCons(l: Limits, s: State, input: Bytes)
    requires input != []
    ensures Run(l, s, input) == Run(l, Step(l, s, input[0]), input[1..])
  {
  }

  /** Only a blank record ending in LF begins with LF. */
  lemma {:induction false} FirstByte(fs: seq<Field>, l: Limits)
    requires FieldsOk(l, fs)
    ensures RenderFields(fs) == [] ==> fs == [Plain([])]
    ensures RenderFields(fs) != [] ==> RenderFields(fs)[0] != LF
    decreases |fs|
  {
    var before, f := fs[..|fs| - 1], fs[|fs| - 1];
    if before != [] {
      FirstLeading(before, l);
    } else {
      assert fs == [f];
      if f.Plain? && f.text != [] { assert !Special(f.text[0]); }
    }
  }

  lemma {:induction false} FirstLeading(fs: seq<Field>, l: Limits)
    requires fs != [] && forall i :: 0 <= i < |fs| ==> FieldOk(l, fs[i])
    ensures RenderLeading(fs) != [] && RenderLeading(fs)[0] != LF
    decreases |fs|
  {
    var before, f := fs[..|fs| - 1], fs[|fs| - 1];
    if before != [] {
      FirstLeading(before, l);
    } else if f.Plain? && f.text != [] {
      assert !Special(f.text[0]);
    }
  }

  function RecordsRead(rs: seq<Record>): State {
    START.(rows := |rs|, emitted := RowsOf(rs), skipLF := rs != [] && rs[|rs| - 1].end == EndCR)
  }

  /** One whole record, possibly right after a bare CR. */
  lemma RunRecord(l: Limits, s: State, r: Record)
    requires AtRecord(s.(skipLF := false)) && RecordOk(l, r) && s.rows < l.rows && (s.skipLF ==> !Blank(r))
    ensures Run(l, s, RenderFields(r.fields) + RenderEnd(r.end))
      == s.(rows := s.rows + 1, emitted := s.emitted + [Texts(r.fields)], skipLF := r.end == EndCR)
  {
    var t, text := s.(skipLF := false), RenderFields(r.fields) + RenderEnd(r.end);
    FirstByte(r.fields, l);
    if s.skipLF { AfterSkip(l, s, text); }
    RunFields(l, t, r.fields);
    RunAppend(l, t, RenderFields(r.fields), RenderEnd(r.end));
    RunEnd(l, t, r.fields, r.end);
  }

  lemma RecordsReadNext(rs: seq<Record>, r: Record)
    ensures AtRecord(RecordsRead(rs).(skipLF := false))
    ensures RecordsRead(rs + [r])
      == RecordsRead(rs).(rows := |rs| + 1, emitted := RowsOf(rs) + [Texts(r.fields)], skipLF := r.end == EndCR)
  {
    AddRecordRows(rs, r);
  }

  lemma LastRecord(l: Limits, rs: seq<Record>, r: Record)
    requires RecordsOk(l, rs + [r])
    ensures RecordsOk(l, rs) && RecordOk(l, r)
    ensures rs != [] && rs[|rs| - 1].end == EndCR ==> !Blank(r)
  {
    var all := rs + [r];
    assert forall i :: 0 <= i < |rs| ==> all[i] == rs[i];
    assert all[|rs|] == r;
  }

  lemma {:induction false} RunRecords(l: Limits, rs: seq<Record>)
    requires RecordsOk(l, rs) && |rs| <= l.rows
    ensures Run(l, START, RenderRecords(rs)) == RecordsRead(rs)
    decreases |rs|
  {
    if rs != [] {
      var before, r := rs[..|rs| - 1], rs[|rs| - 1];
      assert before + [r] == rs;
      LastRecord(l, before, r);
      RunRecords(l, before);
      AddRecordRender(before, r);
      RunNext(l, before, r);
    } else {
      assert RowsOf(rs) == [];
    }
  }

  lemma RunNext(l: Limits, rs: seq<Record>, r: Record)
    requires RecordOk(l, r) && |rs| < l.rows && (rs != [] && rs[|rs| - 1].end == EndCR ==> !Blank(r))
    requires Run(l, START, RenderRecords(rs)) == RecordsRead(rs)
    ensures Run(l, START, RenderRecords(rs) + RenderFields(r.fields) + RenderEnd(r.end)) == RecordsRead(rs + [r])
  {
    var text := RenderFields(r.fields) + RenderEnd(r.end);
    assert RenderRecords(rs) + RenderFields(r.fields) + RenderEnd(r.end) == RenderRecords(rs) + text;
    RunAppend(l, START, RenderRecords(rs), text);
    RecordsReadNext(rs, r);
    RunRecord(l, RecordsRead(rs), r);
  }

  /** Everything in the language is accepted, with its values. */
  lemma Complete(l: Limits, input: Bytes, f: File)
    requires FileOk(l, f) && Render(f) == StripMark(input)
    ensures Parse(l, input).failed.None? && Parse(l, input).emitted == Values(f)
  {
    RunRecords(l, f.records);
    var t := RecordsRead(f.records);
    RunAppend(l, START, RenderRecords(f.records), RenderFields(f.last));
    if f.last == [] {
      assert Run(l, t, []) == t;
    } else {
      FirstByte(f.last, l);
      AfterSkip(l, t, RenderFields(f.last));
      RunFields(l, t.(skipLF := false), f.last);
      EndFields(l, t.(skipLF := false), f.last);
    }
  }

  /** The reader accepts an input and hands on `rows` exactly when the input, without
      a byte-order mark, is written by a derivation within the limits whose values
      are `rows`. */
  lemma Accepts(l: Limits, input: Bytes, rows: seq<Row>)
    ensures Parse(l, input).failed.None? && Parse(l, input).emitted == rows
      <==> exists f :: FileOk(l, f) && Render(f) == StripMark(input) && Values(f) == rows
  {
    if Parse(l, input).failed.None? && Parse(l, input).emitted == rows {
      var f := Sound(l, input);
    }
    if f :| FileOk(l, f) && Render(f) == StripMark(input) && Values(f) == rows {
      Complete(l, input, f);
    }
  }

  ghost predicate InBounds(l: Limits, s: State) {
    |s.field| <= l.fieldBytes && |s.row| <= l.columns && s.recordBytes <= l.recordBytes
    && |s.emitted| == s.rows <= l.rows
  }

  lemma EndRowInBounds(l: Limits, s: State)
    requires InBounds(l, s)
    ensures InBounds(l, EndField(l, s)) && InBounds(l, EndRow(l, s))
  {
  }

  lemma BodyInBounds(l: Limits, s: State, b: byte)
    requires InBounds(l, s)
    ensures InBounds(l, Body(l, s, b))
  {
    if s.quoted || (b != COMMA && b != LF && b != CR) {
      hide EndField, EndRow;
      assert InBounds(l, Append(l, s, b));
    } else {
      EndRowInBounds(l, s);
      hide Append, EndField, EndRow;
    }
  }

  lemma StepInBounds(l: Limits, s: State, b: byte)
    requires InBounds(l, s)
    ensures InBounds(l, Step(l, s, b))
  {
    hide Body;
    if s.recordBytes < l.recordBytes { BodyInBounds(l, s.(skipLF := false, recordBytes := s.recordBytes + 1), b); }
  }

  /** The bounds of every reachable state, whether the input is accepted or not. */
  lemma {:induction false} RunInBounds(l: Limits, s: State, input: Bytes)
    requires InBounds(l, s)
    ensures InBounds(l, Run(l, s, input))
    decreases |input|
  {
    if input != [] {
      StepInBounds(l, s, input[0]);
      RunInBounds(l, Step(l, s, input[0]), input[1..]);
    }
  }
}
