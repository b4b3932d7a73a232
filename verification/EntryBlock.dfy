/** What a 4096-row column block means: the rows that its columns, arena, labels and property map
  * decode to (core/src/entry_table.rs). Columns of one kind are kept in one sequence, in the order
  * in which the block lists them. */
module EntryBlock {
  import opened Common
  import opened TextArena

  // id, size, modified, created, changed, modified_ns, changed_ns, file_id, parent_id, flags
  const NUMBERS := 10

  const TEXTS := 4
  const NAME := 0
  const FOLDED_NAME := 1
  const SEARCH_NAME := 2
  const PARENT := 3

  const PATHS := 3
  const PATH := 0
  const FOLDED_PATH := 1
  const SEARCH_PATH := 2

  // extension, folded extension, volume id
  const LABELS := 3

  /** A JSON value, told apart as far as the block does. */
  datatype Value = Null | EmptyMap | Other(content: Bytes)

  datatype RowData = RowData(
    numbers: seq<int>,
    texts: seq<Bytes>,
    paths: seq<Bytes>,
    labels: seq<Bytes>,
    isDir: bool,
    isSymlink: bool,
    contentIndexed: bool,
    properties: Value)

  type Row = r: RowData
    | |r.numbers| == NUMBERS && |r.texts| == TEXTS && |r.paths| == PATHS && |r.labels| == LABELS
    witness RowData([0, 0, 0, 0, 0, 0, 0, 0, 0, 0], [[], [], [], []], [[], [], []], [[], [], []], false, false, false,
        Null)

  datatype Block = Block(
    numbers: seq<seq<int>>,
    texts: seq<seq<TextRef>>,
    paths: seq<seq<PathRef>>,
    tags: seq<seq<nat>>,
    states: seq<bv8>,
    text: Bytes,
    labels: seq<Bytes>,
    properties: map<nat, Value>)

  const EMPTY_BLOCK: Block := Block(
    [[], [], [], [], [], [], [], [], [], []], [[], [], [], []], [[], [], []], [[], [], []], [], [], [], map[])

  /*** Reading ***/

  predicate PathFits(text: Bytes, path: PathRef) {
    Fits(text, path.prefix) && Fits(text, path.suffix)
  }

  function PathAt(text: Bytes, path: PathRef): Bytes
    requires PathFits(text, path)
  {
    TextAt(text, path.prefix) + TextAt(text, path.suffix)
  }

  ghost predicate PathsFit(text: Bytes, column: seq<PathRef>) {
    forall i :: 0 <= i < |column| ==> PathFits(text, column[i])
  }

  ghost predicate TagsFit(labels: seq<Bytes>, column: seq<nat>) {
    forall i :: 0 <= i < |column| ==> column[i] < |labels|
  }

  ghost predicate TextsSound(text: Bytes, columns: seq<seq<TextRef>>) {
    |columns| == TEXTS && forall c :: 0 <= c < TEXTS ==> Readable(text, columns[c])
  }

  ghost predicate PathsSound(text: Bytes, columns: seq<seq<PathRef>>) {
    |columns| == PATHS && forall c :: 0 <= c < PATHS ==> PathsFit(text, columns[c])
  }

  ghost predicate TagsSound(labels: seq<Bytes>, columns: seq<seq<nat>>) {
    |columns| == LABELS && forall c :: 0 <= c < LABELS ==> TagsFit(labels, columns[c])
  }

  predicate HasProperties(state: bv8) {
    state & 16 != 0
  }

  ghost predicate PropertiesSound(states: seq<bv8>, properties: map<nat, Value>) {
    forall i :: i in properties <==> 0 <= i < |states| && HasProperties(states[i])
  }

  ghost predicate Long<T>(columns: seq<seq<T>>, n: nat) {
    forall c :: 0 <= c < |columns| ==> |columns[c]| == n
  }

  /** A block of n rows in which every reference, label position and state bit can be read. */
  ghost predicate Sound(b: Block, n: nat) {
    && |b.numbers| == NUMBERS && Long(b.numbers, n)
    && TextsSound(b.text, b.texts) && Long(b.texts, n)
    && PathsSound(b.text, b.paths) && Long(b.paths, n)
    && TagsSound(b.labels, b.tags) && Long(b.tags, n)
    && |b.states| == n && PropertiesSound(b.states, b.properties)
    && |b.text| <= U32_MAX
  }

  function Properties(states: seq<bv8>, properties: map<nat, Value>, slot: nat): Value
    requires PropertiesSound(states, properties) && slot < |states|
  {
    if HasProperties(states[slot]) then properties[slot]
    else if states[slot] & 8 != 0 then Null
    else EmptyMap
  }

  /** The row that the accessors of an entry view read from a slot. */
  function RowOf(b: Block, n: nat, slot: nat): Row
    requires Sound(b, n) && slot < n
  {
    RowData(
      seq(NUMBERS, c requires 0 <= c < NUMBERS => b.numbers[c][slot]),
      seq(TEXTS, c requires 0 <= c < TEXTS => TextAt(b.text, b.texts[c][slot])),
      seq(PATHS, c requires 0 <= c < PATHS => PathAt(b.text, b.paths[c][slot])),
      seq(LABELS, c requires 0 <= c < LABELS => b.labels[b.tags[c][slot]]),
      b.states[slot] & 1 != 0,
      b.states[slot] & 2 != 0,
      b.states[slot] & 4 != 0,
      Properties(b.states, b.properties, slot))
  }

  ghost function RowsOf(b: Block, n: nat): seq<Row>
    requires Sound(b, n)
  {
    seq(n, i requires 0 <= i < n => RowOf(b, n, i))
  }

  /*** Writing ***/

  /** Column::set: overwrite a slot, or append the next one. */
  function Stored<T>(column: seq<T>, slot: nat, value: T): seq<T>
    requires slot <= |column|
  {
    if slot == |column| then column + [value] else column[slot := value]
  }

  /** The column differs from the earlier one at the slot alone, and reads the value there. */
  ghost predicate Written(text: Bytes, after: seq<TextRef>, before: seq<TextRef>, slot: nat, value: Bytes)
    requires slot <= |before|
  {
    && slot < |after| && after == Stored(before, slot, after[slot])
    && Fits(text, after[slot]) && TextAt(text, after[slot]) == value
  }

  ghost predicate PathWritten(text: Bytes, after: seq<PathRef>, before: seq<PathRef>, slot: nat, value: Bytes)
    requires slot <= |before|
  {
    && slot < |after| && after == Stored(before, slot, after[slot])
    && PathFits(text, after[slot]) && PathAt(text, after[slot]) == value
  }

  ghost predicate TagWritten(labels: seq<Bytes>, after: seq<nat>, before: seq<nat>, slot: nat, value: Bytes)
    requires slot <= |before|
  {
    && slot < |after| && after == Stored(before, slot, after[slot])
    && after[slot] < |labels| && labels[after[slot]] == value
  }

  /** The state byte of a row: directory, symlink, content-indexed, null and stored properties. */
  function StateBits(row: Row): bv8 {
    (if row.isDir then 1 else 0)
    | ((if row.isSymlink then 1 else 0) << 1)
    | ((if row.contentIndexed then 1 else 0) << 2)
    | ((if row.properties.Null? then 1 else 0) << 3)
    | ((if row.properties.Other? then 1 else 0) << 4)
  }

  lemma StateBitsRead(row: Row)
    ensures StateBits(row) & 1 != 0 <==> row.isDir
    ensures StateBits(row) & 2 != 0 <==> row.isSymlink
    ensures StateBits(row) & 4 != 0 <==> row.contentIndexed
    ensures StateBits(row) & 8 != 0 <==> row.properties.Null?
    ensures HasProperties(StateBits(row)) <==> row.properties.Other?
  {
  }

  function StoredProperties(properties: map<nat, Value>, slot: nat, value: Value): map<nat, Value> {
    if value.Other? then properties[slot := value] else properties - {slot}
  }

  ghost predicate NumbersWritten(after: seq<seq<int>>, before: seq<seq<int>>, slot: nat, row: Row) {
    && |after| == |before| == NUMBERS
    && (forall c :: 0 <= c < NUMBERS ==> slot <= |before[c]| && after[c] == Stored(before[c], slot, row.numbers[c]))
  }

  ghost predicate TextsWritten(text: Bytes, after: seq<seq<TextRef>>, before: seq<seq<TextRef>>, slot: nat, row: Row) {
    && |after| == |before| == TEXTS
    && (forall c :: 0 <= c < TEXTS ==> slot <= |before[c]| && Written(text, after[c], before[c], slot, row.texts[c]))
  }

  ghost predicate PathsWritten(text: Bytes, after: seq<seq<PathRef>>, before: seq<seq<PathRef>>, slot: nat, row: Row) {
    && |after| == |before| == PATHS
    && (forall c :: 0 <= c < PATHS ==>
        slot <= |before[c]| && PathWritten(text, after[c], before[c], slot, row.paths[c]))
  }

  ghost predicate TagsWritten(labels: seq<Bytes>, after: seq<seq<nat>>, before: seq<seq<nat>>, slot: nat, row: Row) {
    && |after| == |before| == LABELS
    && (forall c :: 0 <= c < LABELS ==>
        slot <= |before[c]| && TagWritten(labels, after[c], before[c], slot, row.labels[c]))
  }

  /** Labels are only ever appended. */
  ghost predicate Extended(before: seq<Bytes>, after: seq<Bytes>) {
    |before| <= |after| && after[..|before|] == before
  }

  /** The new block is the old one with a row written into the slot, column by column. */
  ghost predicate RowWritten(before: Block, after: Block, slot: nat, row: Row) {
    && Grown(before.text, after.text) && |after.text| <= U32_MAX && Extended(before.labels, after.labels)
    && NumbersWritten(after.numbers, before.numbers, slot, row)
    && TextsWritten(after.text, after.texts, before.texts, slot, row)
    && PathsWritten(after.text, after.paths, before.paths, slot, row)
    && TagsWritten(after.labels, after.tags, before.tags, slot, row)
    && slot <= |before.states| && after.states == Stored(before.states, slot, StateBits(row))
    && after.properties == StoredProperties(before.properties, slot, row.properties)
  }

  lemma TextColumn(before: Bytes, after: Bytes, prior: seq<TextRef>, column: seq<TextRef>, slot: nat, value: Bytes)
    requires Grown(before, after) && Readable(before, prior)
    requires slot <= |prior| && Written(after, column, prior, slot, value)
    ensures Readable(after, column)
    ensures forall i :: 0 <= i < |column| && i != slot ==> TextAt(after, column[i]) == TextAt(before, prior[i])
  {
    forall i | 0 <= i < |column| && i != slot
      ensures Fits(after, column[i]) && TextAt(after, column[i]) == TextAt(before, prior[i])
    {
      GrownReads(before, after, prior[i]);
    }
  }

  lemma PathColumn(before: Bytes, after: Bytes, prior: seq<PathRef>, column: seq<PathRef>, slot: nat, value: Bytes)
    requires Grown(before, after) && PathsFit(before, prior)
    requires slot <= |prior| && PathWritten(after, column, prior, slot, value)
    ensures PathsFit(after, column)
    ensures forall i :: 0 <= i < |column| && i != slot ==> PathAt(after, column[i]) == PathAt(before, prior[i])
  {
    forall i | 0 <= i < |column| && i != slot
      ensures PathFits(after, column[i]) && PathAt(after, column[i]) == PathAt(before, prior[i])
    {
      GrownReads(before, after, prior[i].prefix);
      GrownReads(before, after, prior[i].suffix);
    }
  }

  lemma TagColumn(before: seq<Bytes>, after: seq<Bytes>, prior: seq<nat>, column: seq<nat>, slot: nat, value: Bytes)
    requires Extended(before, after) && TagsFit(before, prior)
    requires slot <= |prior| && TagWritten(after, column, prior, slot, value)
    ensures TagsFit(after, column)
    ensures forall i :: 0 <= i < |column| && i != slot ==> after[column[i]] == before[prior[i]]
  {
    forall i | 0 <= i < |column| && i != slot
      ensures column[i] < |after| && after[column[i]] == before[prior[i]]
    {
      assert after[..|before|][prior[i]] == before[prior[i]];
    }
  }

  lemma PropertiesColumn(states: seq<bv8>, properties: map<nat, Value>, slot: nat, row: Row)
    requires PropertiesSound(states, properties) && slot <= |states|
    ensures PropertiesSound(Stored(states, slot, StateBits(row)), StoredProperties(properties, slot, row.properties))
  {
    StateBitsRead(row);
  }

  lemma RowWrittenSound(before: Block, after: Block, n: nat, slot: nat, row: Row)
    requires Sound(before, n) && slot <= n && RowWritten(before, after, slot, row)
    ensures Sound(after, Taller(n, slot))
  {
    forall c | 0 <= c < TEXTS ensures Readable(after.text, after.texts[c]) {
      TextColumn(before.text, after.text, before.texts[c], after.texts[c], slot, row.texts[c]);
    }
    forall c | 0 <= c < PATHS ensures PathsFit(after.text, after.paths[c]) {
      PathColumn(before.text, after.text, before.paths[c], after.paths[c], slot, row.paths[c]);
    }
    forall c | 0 <= c < LABELS ensures TagsFit(after.labels, after.tags[c]) {
      TagColumn(before.labels, after.labels, before.tags[c], after.tags[c], slot, row.labels[c]);
    }
    PropertiesColumn(before.states, before.properties, slot, row);
  }

  function Taller(n: nat, slot: nat): nat {
    if slot == n then n + 1 else n
  }

  lemma SameRow(a: Row, b: Row)
    requires forall c :: 0 <= c < NUMBERS ==> a.numbers[c] == b.numbers[c]
    requires forall c :: 0 <= c < TEXTS ==> a.texts[c] == b.texts[c]
    requires forall c :: 0 <= c < PATHS ==> a.paths[c] == b.paths[c]
    requires forall c :: 0 <= c < LABELS ==> a.labels[c] == b.labels[c]
    requires a.isDir == b.isDir && a.isSymlink == b.isSymlink && a.contentIndexed == b.contentIndexed
    requires a.properties == b.properties
    ensures a == b
  {
    assert a.numbers == b.numbers && a.texts == b.texts && a.paths == b.paths && a.labels == b.labels;
  }

  lemma RowAtSlot(before: Block, after: Block, n: nat, slot: nat, row: Row)
    requires Sound(before, n) && slot <= n && RowWritten(before, after, slot, row)
    requires Sound(after, Taller(n, slot))
    ensures RowOf(after, Taller(n, slot), slot) == row
  {
    StateBitsRead(row);
    SameRow(RowOf(after, Taller(n, slot), slot), row);
  }

  lemma RowElsewhere(before: Block, after: Block, n: nat, slot: nat, row: Row, i: nat)
    requires Sound(before, n) && slot <= n && RowWritten(before, after, slot, row)
    requires Sound(after, Taller(n, slot)) && i < n && i != slot
    ensures RowOf(after, Taller(n, slot), i) == RowOf(before, n, i)
  {
    var a, b := RowOf(after, Taller(n, slot), i), RowOf(before, n, i);
    forall c | 0 <= c < TEXTS ensures a.texts[c] == b.texts[c] {
      TextColumn(before.text, after.text, before.texts[c], after.texts[c], slot, row.texts[c]);
    }
    forall c | 0 <= c < PATHS ensures a.paths[c] == b.paths[c] {
      PathColumn(before.text, after.text, before.paths[c], after.paths[c], slot, row.paths[c]);
    }
    forall c | 0 <= c < LABELS ensures a.labels[c] == b.labels[c] {
      TagColumn(before.labels, after.labels, before.tags[c], after.tags[c], slot, row.labels[c]);
    }
    SameRow(a, b);
  }

  /** Writing a row column by column writes exactly that row: the slot reads back every field, and
    * every other slot reads what it read before. */
  lemma RowWrittenMeans(before: Block, after: Block, n: nat, slot: nat, row: Row)
    requires Sound(before, n) && slot <= n && RowWritten(before, after, slot, row)
    ensures Sound(after, Taller(n, slot))
    ensures RowsOf(after, Taller(n, slot)) == Stored(RowsOf(before, n), slot, row)
  {
    RowWrittenSound(before, after, n, slot, row);
    RowAtSlot(before, after, n, slot, row);
    forall i | 0 <= i < Taller(n, slot) && i != slot
      ensures RowOf(after, Taller(n, slot), i) == RowOf(before, n, i)
    {
      RowElsewhere(before, after, n, slot, row, i);
    }
  }

  /*** The references of a block, in the order in which they are gathered ***/

  function Flat(columns: seq<seq<TextRef>>): seq<TextRef> {
    if columns == [] then [] else columns[0] + Flat(columns[1..])
  }

  function Halves(column: seq<PathRef>): seq<TextRef> {
    if column == [] then [] else [column[0].prefix, column[0].suffix] + Halves(column[1..])
  }

  function FlatPaths(columns: seq<seq<PathRef>>): seq<TextRef> {
    if columns == [] then [] else Halves(columns[0]) + FlatPaths(columns[1..])
  }

  function References(texts: seq<seq<TextRef>>, paths: seq<seq<PathRef>>): seq<TextRef> {
    Flat(texts) + FlatPaths(paths)
  }

  lemma {:induction false} FlatReadable(text: Bytes, columns: seq<seq<TextRef>>)
    requires forall c :: 0 <= c < |columns| ==> Readable(text, columns[c])
    ensures Readable(text, Flat(columns))
  {
    if columns != [] {
      FlatReadable(text, columns[1..]);
    }
  }

  lemma {:induction false} HalvesReadable(text: Bytes, column: seq<PathRef>)
    requires PathsFit(text, column)
    ensures Readable(text, Halves(column))
  {
    if column != [] {
      HalvesReadable(text, column[1..]);
    }
  }

  lemma {:induction false} FlatPathsReadable(text: Bytes, columns: seq<seq<PathRef>>)
    requires forall c :: 0 <= c < |columns| ==> PathsFit(text, columns[c])
    ensures Readable(text, FlatPaths(columns))
  {
    if columns != [] {
      HalvesReadable(text, columns[0]);
      FlatPathsReadable(text, columns[1..]);
    }
  }

  lemma ReferencesReadable(text: Bytes, texts: seq<seq<TextRef>>, paths: seq<seq<PathRef>>)
    requires TextsSound(text, texts) && PathsSound(text, paths)
    ensures Readable(text, References(texts, paths))
  {
    FlatReadable(text, texts);
    FlatPathsReadable(text, paths);
  }

  lemma {:induction false} FlatHas(columns: seq<seq<TextRef>>, c: nat, i: nat)
    requires c < |columns| && i < |columns[c]|
    ensures columns[c][i] in Flat(columns)
  {
    if c > 0 {
      FlatHas(columns[1..], c - 1, i);
    }
  }

  lemma {:induction false} HalvesHas(column: seq<PathRef>, i: nat)
    requires i < |column|
    ensures column[i].prefix in Halves(column) && column[i].suffix in Halves(column)
  {
    if i > 0 {
      HalvesHas(column[1..], i - 1);
    } else {
      assert Halves(column)[0] == column[0].prefix && Halves(column)[1] == column[0].suffix;
    }
  }

  lemma {:induction false} FlatPathsHas(columns: seq<seq<PathRef>>, c: nat, i: nat)
    requires c < |columns| && i < |columns[c]|
    ensures columns[c][i].prefix in FlatPaths(columns) && columns[c][i].suffix in FlatPaths(columns)
  {
    if c > 0 {
      FlatPathsHas(columns[1..], c - 1, i);
    } else {
      HalvesHas(columns[0], i);
    }
  }

  /*** Compaction ***/

  ghost predicate PathImages(placements: seq<Placement>, column: seq<PathRef>, moved: seq<PathRef>) {
    && |moved| == |column|
    && (forall i :: 0 <= i < |column| ==>
          moved[i] == PathRef(Relocated(placements, column[i].prefix), Relocated(placements, column[i].suffix)))
  }

  lemma ImagesAppend(placements: seq<Placement>, a: seq<TextRef>, b: seq<TextRef>, x: seq<TextRef>, y: seq<TextRef>)
    requires Images(placements, a, x) && Images(placements, b, y)
    ensures Images(placements, a + b, x + y)
  {
  }

  lemma {:induction false} FlatImages(placements: seq<Placement>, columns: seq<seq<TextRef>>, moved: seq<seq<TextRef>>)
    requires |moved| == |columns|
    requires forall c :: 0 <= c < |columns| ==> Images(placements, columns[c], moved[c])
    ensures Images(placements, Flat(columns), Flat(moved))
  {
    if columns != [] {
      FlatImages(placements, columns[1..], moved[1..]);
      ImagesAppend(placements, columns[0], Flat(columns[1..]), moved[0], Flat(moved[1..]));
    }
  }

  lemma {:induction false} HalvesImages(placements: seq<Placement>, column: seq<PathRef>, moved: seq<PathRef>)
    requires PathImages(placements, column, moved)
    ensures Images(placements, Halves(column), Halves(moved))
  {
    if column != [] {
      HalvesImages(placements, column[1..], moved[1..]);
      ImagesAppend(placements, [column[0].prefix, column[0].suffix], Halves(column[1..]),
                   [moved[0].prefix, moved[0].suffix], Halves(moved[1..]));
    }
  }

  lemma {:induction false} FlatPathsImages(placements: seq<Placement>, columns: seq<seq<PathRef>>,
    moved: seq<seq<PathRef>>)
    requires |moved| == |columns|
    requires forall c :: 0 <= c < |columns| ==> PathImages(placements, columns[c], moved[c])
    ensures Images(placements, FlatPaths(columns), FlatPaths(moved))
  {
    if columns != [] {
      FlatPathsImages(placements, columns[1..], moved[1..]);
      HalvesImages(placements, columns[0], moved[0]);
      ImagesAppend(placements, Halves(columns[0]), FlatPaths(columns[1..]), Halves(moved[0]), FlatPaths(moved[1..]));
    }
  }

  /** The texts and paths of the new block are the relocated ones of the old block, over the packed arena. */
  ghost predicate Compacted(before: Block, after: Block, ranges: seq<Range>)
    requires InArena(ranges, |before.text|)
  {
    && |after.texts| == |before.texts| && |after.paths| == |before.paths|
    && (forall c :: 0 <= c < |before.texts| ==> Images(Placements(ranges), before.texts[c], after.texts[c]))
    && (forall c :: 0 <= c < |before.paths| ==> PathImages(Placements(ranges), before.paths[c], after.paths[c]))
    && after.text == Packed(before.text, ranges)
    && after.numbers == before.numbers && after.tags == before.tags && after.labels == before.labels
    && after.states == before.states && after.properties == before.properties
  }

  /** Every reference of the block finds its bytes in the merged ranges. */
  ghost predicate Holding(b: Block, ranges: seq<Range>) {
    && Separated(ranges) && InArena(ranges, |b.text|)
    && (forall r :: r in References(b.texts, b.paths) && r.length > 0 ==> Held(Span(r), ranges))
  }

  lemma MovedText(before: Block, after: Block, n: nat, ranges: seq<Range>, c: nat, i: nat)
    requires Sound(before, n) && Holding(before, ranges) && Compacted(before, after, ranges)
    requires c < TEXTS && i < n
    ensures Fits(after.text, after.texts[c][i])
    ensures TextAt(after.text, after.texts[c][i]) == TextAt(before.text, before.texts[c][i])
  {
    FlatHas(before.texts, c, i);
    RelocatedReads(before.text, ranges, before.texts[c][i]);
    assert Images(Placements(ranges), before.texts[c], after.texts[c]);
  }

  lemma MovedPath(before: Block, after: Block, n: nat, ranges: seq<Range>, c: nat, i: nat)
    requires Sound(before, n) && Holding(before, ranges) && Compacted(before, after, ranges)
    requires c < PATHS && i < n
    ensures PathFits(after.text, after.paths[c][i])
    ensures PathAt(after.text, after.paths[c][i]) == PathAt(before.text, before.paths[c][i])
  {
    FlatPathsHas(before.paths, c, i);
    RelocatedReads(before.text, ranges, before.paths[c][i].prefix);
    RelocatedReads(before.text, ranges, before.paths[c][i].suffix);
    assert PathImages(Placements(ranges), before.paths[c], after.paths[c]);
  }

  ghost function Live(b: Block): nat {
    LiveCount(b.text, References(b.texts, b.paths))
  }

  lemma MergedHolds(b: Block, n: nat, ranges: seq<Range>)
    requires Sound(b, n) && Merged(ranges, Spans(References(b.texts, b.paths)))
    ensures Holding(b, ranges) && Total(ranges) == Live(b) <= |b.text|
  {
    var refs := References(b.texts, b.paths);
    ReferencesReadable(b.text, b.texts, b.paths);
    var spans := Spans(refs);
    MergedCount(ranges, spans, |b.text|);
    LiveAtMost(spans, |b.text|);
    forall r | r in refs && r.length > 0 ensures Held(Span(r), ranges) {
      var i :| 0 <= i < |refs| && refs[i] == r;
      assert spans[i] == Span(r);
    }
  }

  lemma CompactedSound(before: Block, after: Block, n: nat, ranges: seq<Range>)
    requires Sound(before, n) && Holding(before, ranges) && Compacted(before, after, ranges)
    requires |after.text| <= U32_MAX
    ensures Sound(after, n)
  {
    forall c | 0 <= c < TEXTS ensures |after.texts[c]| == n && Readable(after.text, after.texts[c]) {
      assert Images(Placements(ranges), before.texts[c], after.texts[c]);
      forall i | 0 <= i < n ensures Fits(after.text, after.texts[c][i]) {
        MovedText(before, after, n, ranges, c, i);
      }
    }
    forall c | 0 <= c < PATHS ensures |after.paths[c]| == n && PathsFit(after.text, after.paths[c]) {
      assert PathImages(Placements(ranges), before.paths[c], after.paths[c]);
      forall i | 0 <= i < n ensures PathFits(after.text, after.paths[c][i]) {
        MovedPath(before, after, n, ranges, c, i);
      }
    }
  }

  lemma CompactedRow(before: Block, after: Block, n: nat, ranges: seq<Range>, i: nat)
    requires Sound(before, n) && Holding(before, ranges) && Compacted(before, after, ranges)
    requires Sound(after, n) && i < n
    ensures RowOf(after, n, i) == RowOf(before, n, i)
  {
    var a, b := RowOf(after, n, i), RowOf(before, n, i);
    forall c | 0 <= c < TEXTS ensures a.texts[c] == b.texts[c] {
      MovedText(before, after, n, ranges, c, i);
    }
    forall c | 0 <= c < PATHS ensures a.paths[c] == b.paths[c] {
      MovedPath(before, after, n, ranges, c, i);
    }
    SameRow(a, b);
  }

  lemma CompactedLive(before: Block, after: Block, n: nat, ranges: seq<Range>)
    requires Sound(before, n) && Merged(ranges, Spans(References(before.texts, before.paths)))
    requires InArena(ranges, |before.text|) && Compacted(before, after, ranges)
    ensures Live(after) == |after.text| == Live(before)
  {
    ReferencesReadable(before.text, before.texts, before.paths);
    FlatImages(Placements(ranges), before.texts, after.texts);
    FlatPathsImages(Placements(ranges), before.paths, after.paths);
    ImagesAppend(Placements(ranges), Flat(before.texts), FlatPaths(before.paths), Flat(after.texts),
        FlatPaths(after.paths));
    PackedIsLive(before.text, ranges, References(before.texts, before.paths), References(after.texts, after.paths));
  }

  /** Compaction preserves every row, and leaves an arena in which every byte is live. */
  lemma CompactionMeans(before: Block, after: Block, n: nat, ranges: seq<Range>)
    requires Sound(before, n) && Merged(ranges, Spans(References(before.texts, before.paths)))
    requires InArena(ranges, |before.text|) && Compacted(before, after, ranges)
    ensures Sound(after, n) && RowsOf(after, n) == RowsOf(before, n)
    ensures |after.text| == Live(after) == Live(before)
  {
    MergedHolds(before, n, ranges);
    CompactedLive(before, after, n, ranges);
    CompactedSound(before, after, n, ranges);
    forall i | 0 <= i < n ensures RowOf(after, n, i) == RowOf(before, n, i) {
      CompactedRow(before, after, n, ranges, i);
    }
  }

  /*** A block whose rows are all empty text has no live byte ***/

  ghost predicate AllEmpty(refs: seq<TextRef>) {
    forall i :: 0 <= i < |refs| ==> refs[i].length == 0
  }

  lemma {:induction false} FlatEmpty(columns: seq<seq<TextRef>>)
    requires forall c :: 0 <= c < |columns| ==> AllEmpty(columns[c])
    ensures AllEmpty(Flat(columns))
  {
    if columns != [] {
      FlatEmpty(columns[1..]);
    }
  }

  lemma {:induction false} HalvesEmpty(column: seq<PathRef>)
    requires forall i :: 0 <= i < |column| ==> column[i].prefix.length == 0 && column[i].suffix.length == 0
    ensures AllEmpty(Halves(column))
  {
    if column != [] {
      HalvesEmpty(column[1..]);
    }
  }

  lemma {:induction false} FlatPathsEmpty(columns: seq<seq<PathRef>>)
    requires forall c :: 0 <= c < |columns| ==> AllEmpty(Halves(columns[c]))
    ensures AllEmpty(FlatPaths(columns))
  {
    if columns != [] {
      FlatPathsEmpty(columns[1..]);
    }
  }

  lemma EmptyRowsAreDead(b: Block, n: nat)
    requires Sound(b, n)
    requires forall i, c :: 0 <= i < n && 0 <= c < TEXTS ==> RowOf(b, n, i).texts[c] == []
    requires forall i, c :: 0 <= i < n && 0 <= c < PATHS ==> RowOf(b, n, i).paths[c] == []
    ensures Live(b) == 0
  {
    forall c | 0 <= c < TEXTS ensures AllEmpty(b.texts[c]) {
      forall i | 0 <= i < n ensures b.texts[c][i].length == 0 {
        assert RowOf(b, n, i).texts[c] == [];
      }
    }
    FlatEmpty(b.texts);
    forall c | 0 <= c < PATHS ensures AllEmpty(Halves(b.paths[c])) {
      forall i | 0 <= i < n ensures b.paths[c][i].prefix.length == 0 && b.paths[c][i].suffix.length == 0 {
        assert |RowOf(b, n, i).paths[c]| == 0;
      }
      HalvesEmpty(b.paths[c]);
    }
    FlatPathsEmpty(b.paths);
    var refs := References(b.texts, b.paths);
    assert AllEmpty(refs);
    assert forall s :: s in Spans(refs) ==> s.start == s.end;
    assert forall p :: p !in LiveBytes(Spans(refs), |b.text|);
    assert LiveBytes(Spans(refs), |b.text|) == {};
  }
}
