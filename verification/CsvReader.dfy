/** The streaming CSV reader for file lists. Bytes are consumed one at a time;
    what the reader accepts is characterised by a grammar: section 2 of RFC 4180
    with a bare CR or a bare LF as further record terminators, and blank records. */
module CsvReader {
  import opened Common

  const LF: byte := 10
  const CR: byte := 13
  const QUOTE: byte := 34
  const COMMA: byte := 44

  datatype Error = FileListLimit | InvalidUtf8 | InvalidQuote | UnterminatedQuote

  /** The reader's bounds, and the strict UTF-8 decoder as a test on bytes. */
  datatype Limits = Limits(bytes: nat, rows: nat, fieldBytes: nat, recordBytes: nat, columns: nat,
      decodes: Bytes -> bool)

  type Row = seq<Bytes>

  // ---------- The reader as a state machine ----------

  datatype State = State(
    field: Bytes, row: Row, quoted: bool, afterQuote: bool, skipLF: bool, pending: bool,
    recordBytes: nat, rows: nat, emitted: seq<Row>, failed: Option<Error>)

  const START := State([], [], false, false, false, false, 0, 0, [], None)

  function Fail(s: State, e: Error): State {
    s.(failed := Some(e))
  }

  function Append(l: Limits, s: State, b: byte): State {
    if |s.field| >= l.fieldBytes then Fail(s, FileListLimit) else s.(field := s.field + [b])
  }

  function EndField(l: Limits, s: State): State {
    if |s.row| >= l.columns then Fail(s, FileListLimit)
    else if !l.decodes(s.field) then Fail(s, InvalidUtf8)
    else s.(row := s.row + [s.field], field := [], afterQuote := false)
  }

  function EndRow(l: Limits, s: State): State {
    var s := EndField(l, s);
    if s.failed.Some? then s
    else if s.rows >= l.rows then Fail(s, FileListLimit)
    else s.(rows := s.rows + 1, emitted := s.emitted + [s.row], row := [], pending := false, recordBytes := 0)
  }

  /** The part of `consume` after the bookkeeping for line breaks and record length. */
  function Body(l: Limits, s: State, b: byte): State {
    if s.quoted then
      if b == QUOTE then s.(quoted := false, afterQuote := true) else Append(l, s, b)
    else if s.afterQuote && b == QUOTE then
      var s := Append(l, s, b);
      if s.failed.Some? then s else s.(quoted := true, afterQuote := false)
    else if b == COMMA then
      var s := EndField(l, s);
      if s.failed.Some? then s else s.(pending := true)
    else if b == LF || b == CR then
      var s := EndRow(l, s);
      if s.failed.Some? then s else s.(skipLF := b == CR)
    else if s.afterQuote then Fail(s, InvalidQuote)
    else if b == QUOTE then
      if s.field != [] then Fail(s, InvalidQuote) else s.(quoted := true, pending := true)
    else
      var s := Append(l, s, b);
      if s.failed.Some? then s else s.(pending := true)
  }

  /** `consume`; once an error has been thrown no later byte has any effect. */
  function Step(l: Limits, s: State, b: byte): State {
    if s.failed.Some? then s
    else if s.skipLF && b == LF then s.(skipLF := false)
    else if s.recordBytes >= l.recordBytes then Fail(s.(skipLF := false), FileListLimit)
    else Body(l, s.(skipLF := false, recordBytes := s.recordBytes + 1), b)
  }

  function Run(l: Limits, s: State, input: Bytes): State
    decreases |input|
  {
    if input == [] then s else Run(l, Step(l, s, input[0]), input[1..])
  }

  function Finish(l: Limits, s: State): State {
    if s.failed.Some? then s
    else if s.quoted then Fail(s, UnterminatedQuote)
    else if s.pending || s.row != [] || s.field != [] then EndRow(l, s)
    else s
  }

  const MARK: Bytes := [0xef, 0xbb, 0xbf]

  function StripMark(input: Bytes): Bytes {
    if |input| >= 3 && input[..3] == MARK then input[3..] else input
  }

  /** What reading the whole of `input` gives: the rows handed on, and the error if any. */
  function Parse(l: Limits, input: Bytes): State {
    Finish(l, Run(l, START, StripMark(input)))
  }

  lemma {:induction false} RunAppend(l: Limits, s: State, x: Bytes, y: Bytes)
    ensures Run(l, s, x + y) == Run(l, Run(l, s, x), y)
    decreases |x|
  {
    if x == [] {
      assert x + y == y;
    } else {
      assert (x + y)[1..] == x[1..] + y;
      RunAppend(l, Step(l, s, x[0]), x[1..], y);
    }
  }

  lemma RunOne(l: Limits, s: State, b: byte)
    ensures Run(l, s, [b]) == Step(l, s, b)
  {
    assert [b][1..] == [];
    assert Run(l, Step(l, s, b), []) == Step(l, s, b);
  }

  // ---------- The reader itself ----------

  class CSVReader {
    const limits: Limits
    var field: Bytes
    var row: Row
    var prefix: Bytes
    var started: bool
    var quoted: bool
    var afterQuote: bool
    var skipLF: bool
    var pending: bool
    var total: nat
    var recordBytes: nat
    var rows: nat
    var emitted: seq<Row>  // what the row callback has been given
    ghost var failed: Option<Error>
    ghost var consumed: Bytes  // everything fed so far, however it was cut into chunks

    ghost function Now(): State
      reads this
    {
      State(field, row, quoted, afterQuote, skipLF, pending, recordBytes, rows, emitted, failed)
    }

    ghost predicate Valid()
      reads this
    {
      && total == |consumed| <= limits.bytes
      && (if started then |consumed| >= 3 && prefix == [] && Now() == Run(limits, START, StripMark(consumed))
          else |consumed| < 3 && prefix == consumed && Now() == START)
    }

    constructor (limits: Limits)
      ensures Valid() && this.limits == limits && consumed == []
    {
      this.limits := limits;
      field, row, prefix, emitted, consumed := [], [], [], [], [];
      started, quoted, afterQuote, skipLF, pending := false, false, false, false, false;
      total, recordBytes, rows, failed := 0, 0, 0, None;
    }

    method AppendByte(b: byte) returns (error: Option<Error>)
      requires failed.None?
      modifies this`field, this`failed
      ensures Now() == Append(limits, old(Now()), b) && error == failed
    {
      if |field| >= limits.fieldBytes { failed := Some(FileListLimit); return Some(FileListLimit); }
      field := field + [b];
      error := None;
    }

    method CloseField() returns (error: Option<Error>)
      requires failed.None?
      modifies this`field, this`row, this`afterQuote, this`failed
      ensures Now() == EndField(limits, old(Now())) && error == failed
    {
      if |row| >= limits.columns { failed := Some(FileListLimit); return Some(FileListLimit); }
      if !limits.decodes(field) { failed := Some(InvalidUtf8); return Some(InvalidUtf8); }
      row, field, afterQuote := row + [field], [], false;
      error := None;
    }

    method CloseRow() returns (error: Option<Error>)
      requires failed.None?
      modifies this`field, this`row, this`afterQuote, this`pending, this`recordBytes, this`rows, this`emitted,
          this`failed
      ensures Now() == EndRow(limits, old(Now())) && error == failed
    {
      error := CloseField();
      if error.Some? { return; }
      if rows >= limits.rows { failed := Some(FileListLimit); return Some(FileListLimit); }
      rows := rows + 1;
      emitted := emitted + [row];
      row, pending, recordBytes := [], false, 0;
    }

    /** The part of consume after the bookkeeping for line breaks and record length. */
    method ConsumeBody(b: byte) returns (error: Option<Error>)
      requires failed.None?
      modifies this`field, this`row, this`quoted, this`afterQuote, this`skipLF, this`pending, this`recordBytes,
          this`rows, this`emitted, this`failed
      ensures Now() == Body(limits, old(Now()), b) && error == failed
    {
      hide Append, EndField, EndRow;
      error := None;
      if quoted {
        if b == QUOTE { quoted, afterQuote := false, true; } else { error := AppendByte(b); }
        return;
      }
      if afterQuote && b == QUOTE {
        error := AppendByte(b);
        if error.Some? { return; }
        quoted, afterQuote := true, false;
        return;
      }
      if b == COMMA {
        error := CloseField();
        if error.Some? { return; }
        pending := true;
        return;
      }
      if b == LF || b == CR {
        error := CloseRow();
        if error.Some? { return; }
        skipLF := b == CR;
        return;
      }
      if afterQuote { failed := Some(InvalidQuote); return Some(InvalidQuote); }
      if b == QUOTE {
        if field != [] { failed := Some(InvalidQuote); return Some(InvalidQuote); }
        quoted, pending := true, true;
      } else {
        error := AppendByte(b);
        if error.Some? { return; }
        pending := true;
      }
    }

    method Consume(b: byte) returns (error: Option<Error>)
      requires failed.None?
      modifies this`field, this`row, this`quoted, this`afterQuote, this`skipLF, this`pending, this`recordBytes,
          this`rows, this`emitted, this`failed
      ensures Now() == Step(limits, old(Now()), b) && error == failed
    {
      hide Body;
      error := None;
      if skipLF {
        skipLF := false;
        if b == LF { return; }
      }
      if recordBytes >= limits.recordBytes { failed := Some(FileListLimit); return Some(FileListLimit); }
      recordBytes := recordBytes + 1;
      error := ConsumeBody(b);
    }

    /** Consume several bytes, stopping at the first error. */
    method ConsumeAll(data: Bytes) returns (error: Option<Error>)
      requires failed.None?
      modifies this`field, this`row, this`quoted, this`afterQuote, this`skipLF, this`pending, this`recordBytes,
          this`rows, this`emitted, this`failed
      ensures Now() == Run(limits, old(Now()), data) && error == failed
    {
      error := None;
      var i := 0;
      while i < |data|
        invariant i <= |data| && error.None? && failed.None?
        invariant Now() == Run(limits, old(Now()), data[..i])
      {
        RunAppend(limits, old(Now()), data[..i], [data[i]]);
        RunOne(limits, Now(), data[i]);
        assert data[..i + 1] == data[..i] + [data[i]];
        error := Consume(data[i]);
        i := i + 1;
        if error.Some? {
          RunAppend(limits, old(Now()), data[..i], data[i..]);
          RunFailed(limits, Now(), data[i..]);
          assert data == data[..i] + data[i..];
          return;
        }
      }
      assert data[..i] == data;
    }

    /** One chunk. The state reached depends only on all the bytes fed so far. */
    method Feed(data: Bytes) returns (error: Option<Error>)
      requires Valid() && failed.None?
      modifies this
      ensures Valid()
      ensures |data| > limits.bytes - old(total) ==>
                error == Some(FileListLimit) && Now() == old(Now()) && consumed == old(consumed)
      ensures |data| <= limits.bytes - old(total) ==> error == failed && consumed == old(consumed) + data
    {
      if |data| > limits.bytes - total { return Some(FileListLimit); }
      total := total + |data|;
      ghost var before := consumed;
      consumed := consumed + data;
      if started {
        assert StripMark(consumed) == StripMark(before) + data;
        RunAppend(limits, START, StripMark(before), data);
        error := ConsumeAll(data);
      } else if |prefix| + |data| < 3 {
        prefix := prefix + data;
        error := None;
      } else {
        // the byte-order mark is recognised once three bytes have arrived
        var n := 3 - |prefix|;
        prefix := prefix + data[..n];
        started := true;
        assert consumed[..3] == prefix && consumed[3..] == data[n..];
        if prefix != MARK {
          assert consumed == prefix + data[n..];
          RunAppend(limits, START, prefix, data[n..]);
          error := ConsumeAll(prefix);
          if error.Some? { RunFailed(limits, Now(), data[n..]); prefix := []; return; }
        }
        prefix := [];
        error := ConsumeAll(data[n..]);
      }
    }

    /** End of input: rows and error are those of the whole input. */
    method Close() returns (error: Option<Error>)
      requires Valid() && failed.None?
      modifies this
      ensures Now() == Parse(limits, consumed) && error == failed && consumed == old(consumed)
    {
      error := None;
      if !started {
        assert StripMark(consumed) == consumed;
        error := ConsumeAll(prefix);
        prefix := [];
        if error.Some? { return; }
      }
      if quoted { failed := Some(UnterminatedQuote); return Some(UnterminatedQuote); }
      if pending || row != [] || field != [] { error := CloseRow(); }
    }
  }

  lemma {:induction false} RunFailed(l: Limits, s: State, input: Bytes)
    requires s.failed.Some?
    ensures Run(l, s, input) == s
    decreases |input|
  {
    if input != [] { RunFailed(l, s, input[1..]); }
  }

  /** Records that were handed on stay handed on. */
  lemma StepEmits(l: Limits, s: State, b: byte)
    ensures s.emitted <= Step(l, s, b).emitted
  {
  }

  lemma {:induction false} RunEmits(l: Limits, s: State, input: Bytes)
    ensures s.emitted <= Run(l, s, input).emitted
    decreases |input|
  {
    if input != [] {
      StepEmits(l, s, input[0]);
      RunEmits(l, Step(l, s, input[0]), input[1..]);
    }
  }

  lemma FinishEmits(l: Limits, s: State)
    ensures s.emitted <= Finish(l, s).emitted
    ensures s.failed.Some? ==> Finish(l, s) == s
  {
  }
}
