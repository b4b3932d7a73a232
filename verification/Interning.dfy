/** What writing a row asks of the text arena: which texts are interned, in which order, and how many bytes
  * that appends (core/src/entry_table.rs). */
module Interning {
  import opened Common
  import opened TextArena
  import opened EntryBlock

  /** Length of the path up to and including its last '/'. */
  function SplitAt(path: Bytes): (k: nat)
    ensures k <= |path|
  {
    if path == [] then 0
    else if path[|path| - 1] == 47 then |path|
    else SplitAt(path[..|path| - 1])
  }

  // ---------- The bytes that interning appends ----------

  function Members(values: seq<Bytes>): set<Bytes> {
    set value | value in values
  }

  /** Every value that is neither known nor asked for before is appended once. */
  function Cost(known: set<Bytes>, asked: seq<Bytes>): nat {
    if asked == [] then 0
    else
      var front, last := asked[..|asked| - 1], asked[|asked| - 1];
      Cost(known, front) + (if last in known || last in front then 0 else |last|)
  }

  /** Interning these values in turn succeeds exactly when all that it appends fits the arena; then the arena
    * has grown by that, and the values are known. */
  ghost predicate Interned(
    size: nat, known: set<Bytes>, asked: seq<Bytes>, ok: bool, after: nat, knownAfter: set<Bytes>)
  {
    && (ok <==> size + Cost(known, asked) <= U32_MAX)
    && (ok ==> after == size + Cost(known, asked) && knownAfter == known + Members(asked))
  }

  lemma {:induction false} CostJoined(known: set<Bytes>, asked: seq<Bytes>, more: seq<Bytes>)
    ensures Cost(known, asked + more) == Cost(known, asked) + Cost(known + Members(asked), more)
    decreases |more|
  {
    if more == [] {
      assert asked + more == asked;
    } else {
      var front, last := more[..|more| - 1], more[|more| - 1];
      assert (asked + more)[..|asked + more| - 1] == asked + front;
      CostJoined(known, asked, front);
      assert last in asked + front <==> last in asked || last in front;
    }
  }

  lemma InternedJoined(
    size: nat, known: set<Bytes>, asked: seq<Bytes>, middle: nat, knownMiddle: set<Bytes>,
    more: seq<Bytes>, ok: bool, after: nat, knownAfter: set<Bytes>)
    requires Interned(size, known, asked, true, middle, knownMiddle)
    requires Interned(middle, knownMiddle, more, ok, after, knownAfter)
    ensures Interned(size, known, asked + more, ok, after, knownAfter)
  {
    CostJoined(known, asked, more);
    assert Members(asked + more) == Members(asked) + Members(more);
  }

  /** A failure on the way is the failure of the whole. */
  lemma InternedFailed(
    size: nat, known: set<Bytes>, asked: seq<Bytes>, more: seq<Bytes>, middle: nat, knownMiddle: set<Bytes>,
    after: nat, knownAfter: set<Bytes>)
    requires Interned(size, known, asked, false, middle, knownMiddle)
    ensures Interned(size, known, asked + more, false, after, knownAfter)
  {
    CostJoined(known, asked, more);
  }

  lemma InternedNothing(size: nat, known: set<Bytes>)
    requires size <= U32_MAX
    ensures Interned(size, known, [], true, size, known)
  {
    assert Members([]) == {};
  }

  /** Asking for nothing cannot fail. */
  lemma FailedAsked(size: nat, known: set<Bytes>, asked: seq<Bytes>, after: nat, knownAfter: set<Bytes>)
    requires Interned(size, known, asked, false, after, knownAfter) && size <= U32_MAX
    ensures asked != []
  {
  }

  function Lengths(values: seq<Bytes>): nat {
    if values == [] then 0 else Lengths(values[..|values| - 1]) + |values[|values| - 1]|
  }

  /** Never more than all values together, and nothing when each is known or empty. */
  lemma {:induction false} CostBound(known: set<Bytes>, asked: seq<Bytes>)
    ensures Cost(known, asked) <= Lengths(asked)
    ensures (forall value :: value in asked ==> value in known || value == []) <==> Cost(known, asked) == 0
    decreases |asked|
  {
    if asked != [] {
      var front, last := asked[..|asked| - 1], asked[|asked| - 1];
      CostBound(known, front);
      assert forall value :: value in asked <==> value in front || value == last;
    }
  }

  // ---------- The texts that writing a row asks for ----------

  /** The texts that interning finds: the keys of the dictionary, or before there is one what is read. */
  ghost function KnownTexts(
    text: Bytes, texts: seq<seq<TextRef>>, paths: seq<seq<PathRef>>, pending: Option<map<Bytes, TextRef>>): set<Bytes>
  {
    match pending
    case Some(dictionary) => dictionary.Keys
    case None => set r | r in References(texts, paths) && Fits(text, r) :: TextAt(text, r)
  }

  /** Once there is a dictionary, it alone counts. */
  lemma SameDictionary(
    text: Bytes, texts: seq<seq<TextRef>>, paths: seq<seq<PathRef>>, texts': seq<seq<TextRef>>,
    paths': seq<seq<PathRef>>, pending: Option<map<Bytes, TextRef>>)
    requires pending.Some?
    ensures KnownTexts(text, texts', paths', pending) == KnownTexts(text, texts, paths, pending)
  {
  }

  /** A slot that reads the value already asks for nothing. */
  function TextAsk(text: Bytes, column: seq<TextRef>, slot: nat, value: Bytes): seq<Bytes>
    requires Readable(text, column)
  {
    if slot < |column| && TextAt(text, column[slot]) == value then [] else [value]
  }

  function PathAsk(text: Bytes, column: seq<PathRef>, slot: nat, value: Bytes): seq<Bytes>
    requires PathsFit(text, column)
  {
    if slot < |column| && PathAt(text, column[slot]) == value then []
    else [value[..SplitAt(value)], value[SplitAt(value)..]]
  }

  /** A parent that begins the prefix of the path is stored as a part of it. */
  function ParentAsk(text: Bytes, column: seq<TextRef>, prefix: Bytes, slot: nat, value: Bytes): seq<Bytes>
    requires Readable(text, column)
  {
    if value <= prefix then [] else TextAsk(text, column, slot, value)
  }

  /** The parents once that is done without interning. */
  function ParentColumn(
    text: Bytes, column: seq<TextRef>, prefix: TextRef, slot: nat, value: Bytes): seq<TextRef>
    requires Readable(text, column) && Fits(text, prefix) && slot <= |column|
  {
    if TextAsk(text, column, slot, value) == [] || !(value <= TextAt(text, prefix)) then column
    else Stored(column, slot, TextRef(prefix.offset, |value|))
  }

  function NameAsks(text: Bytes, texts: seq<seq<TextRef>>, slot: nat, row: Row): seq<Bytes>
    requires TextsSound(text, texts)
  {
    TextAsk(text, texts[SEARCH_NAME], slot, row.texts[SEARCH_NAME])
    + TextAsk(text, texts[NAME], slot, row.texts[NAME])
    + TextAsk(text, texts[FOLDED_NAME], slot, row.texts[FOLDED_NAME])
  }

  /** The prefix of the path in a slot once the path is written. */
  function PrefixThen(text: Bytes, column: seq<PathRef>, slot: nat, value: Bytes): Bytes
    requires PathsFit(text, column)
  {
    if slot < |column| && PathAt(text, column[slot]) == value then TextAt(text, column[slot].prefix)
    else value[..SplitAt(value)]
  }

  function PairAsks(text: Bytes, texts: seq<seq<TextRef>>, paths: seq<seq<PathRef>>, slot: nat, row: Row): seq<Bytes>
    requires TextsSound(text, texts) && PathsSound(text, paths)
  {
    PathAsk(text, paths[PATH], slot, row.paths[PATH])
    + ParentAsk(text, texts[PARENT], PrefixThen(text, paths[PATH], slot, row.paths[PATH]), slot, row.texts[PARENT])
  }

  /** What is known when the path and the parent have been written, if that asked for nothing: a dictionary that
    * is made later is made from the references that are there then. */
  ghost function PairKnown(
    text: Bytes, texts: seq<seq<TextRef>>, paths: seq<seq<PathRef>>, pending: Option<map<Bytes, TextRef>>, slot: nat,
    row: Row): set<Bytes>
    requires TextsSound(text, texts) && PathsSound(text, paths) && slot <= |texts[PARENT]|
  {
    if pending.None? && slot < |paths[PATH]| && PairAsks(text, texts, paths, slot, row) == [] then
      var column := ParentColumn(text, texts[PARENT], paths[PATH][slot].prefix, slot, row.texts[PARENT]);
      KnownTexts(text, texts[PARENT := column], paths, None)
    else KnownTexts(text, texts, paths, pending)
  }

  function SearchAsks(text: Bytes, paths: seq<seq<PathRef>>, slot: nat, row: Row): seq<Bytes>
    requires PathsSound(text, paths)
  {
    PathAsk(text, paths[FOLDED_PATH], slot, row.paths[FOLDED_PATH])
    + PathAsk(text, paths[SEARCH_PATH], slot, row.paths[SEARCH_PATH])
  }

  function RowAsks(text: Bytes, texts: seq<seq<TextRef>>, paths: seq<seq<PathRef>>, slot: nat, row: Row): seq<Bytes>
    requires TextsSound(text, texts) && PathsSound(text, paths)
  {
    NameAsks(text, texts, slot, row) + PairAsks(text, texts, paths, slot, row) + SearchAsks(text, paths, slot, row)
  }

  ghost function RowKnown(
    text: Bytes, texts: seq<seq<TextRef>>, paths: seq<seq<PathRef>>, pending: Option<map<Bytes, TextRef>>, slot: nat,
    row: Row): set<Bytes>
    requires TextsSound(text, texts) && PathsSound(text, paths) && slot <= |texts[PARENT]|
  {
    if NameAsks(text, texts, slot, row) == [] then PairKnown(text, texts, paths, pending, slot, row)
    else KnownTexts(text, texts, paths, pending)
  }

  /** The bytes that writing the row into the slot appends. */
  ghost function Needed(b: Block, pending: Option<map<Bytes, TextRef>>, slot: nat, row: Row): nat
    requires TextsSound(b.text, b.texts) && PathsSound(b.text, b.paths) && slot <= |b.texts[PARENT]|
  {
    Cost(RowKnown(b.text, b.texts, b.paths, pending, slot, row), RowAsks(b.text, b.texts, b.paths, slot, row))
  }

  /** The most bytes that a row can add to an arena. */
  function Weight(row: Row): nat {
    |row.texts[SEARCH_NAME]| + |row.texts[NAME]| + |row.texts[FOLDED_NAME]| + |row.texts[PARENT]|
    + |row.paths[PATH]| + |row.paths[FOLDED_PATH]| + |row.paths[SEARCH_PATH]|
  }

  lemma {:induction false} TotalJoined(values: seq<Bytes>, more: seq<Bytes>)
    ensures Lengths(values + more) == Lengths(values) + Lengths(more)
    decreases |more|
  {
    if more == [] {
      assert values + more == values;
    } else {
      assert (values + more)[..|values + more| - 1] == values + more[..|more| - 1];
      TotalJoined(values, more[..|more| - 1]);
    }
  }

  lemma TextAskTotal(text: Bytes, column: seq<TextRef>, slot: nat, value: Bytes)
    requires Readable(text, column)
    ensures Lengths(TextAsk(text, column, slot, value)) <= |value|
  {
    assert [value][..0] == [];
  }

  lemma PathAskTotal(text: Bytes, column: seq<PathRef>, slot: nat, value: Bytes)
    requires PathsFit(text, column)
    ensures Lengths(PathAsk(text, column, slot, value)) <= |value|
  {
    var prefix, suffix := value[..SplitAt(value)], value[SplitAt(value)..];
    assert [prefix, suffix] == [prefix] + [suffix];
    TotalJoined([prefix], [suffix]);
    assert [prefix][..0] == [] && [suffix][..0] == [];
  }

  /** A row never needs more than its weight. */
  lemma NeededBound(b: Block, pending: Option<map<Bytes, TextRef>>, slot: nat, row: Row)
    requires TextsSound(b.text, b.texts) && PathsSound(b.text, b.paths) && slot <= |b.texts[PARENT]|
    ensures Needed(b, pending, slot, row) <= Weight(row)
  {
    hide TextsSound, PathsSound, TextAsk, PathAsk, Cost, Lengths, RowKnown;
    CostBound(RowKnown(b.text, b.texts, b.paths, pending, slot, row), RowAsks(b.text, b.texts, b.paths, slot, row));
    RowAsksTotal(b.text, b.texts, b.paths, slot, row);
  }

  lemma RowAsksTotal(text: Bytes, texts: seq<seq<TextRef>>, paths: seq<seq<PathRef>>, slot: nat, row: Row)
    requires TextsSound(text, texts) && PathsSound(text, paths)
    ensures Lengths(RowAsks(text, texts, paths, slot, row)) <= Weight(row)
  {
    hide TextAsk, PathAsk, Lengths;
    var a := TextAsk(text, texts[SEARCH_NAME], slot, row.texts[SEARCH_NAME]);
    var b := TextAsk(text, texts[NAME], slot, row.texts[NAME]);
    var c := TextAsk(text, texts[FOLDED_NAME], slot, row.texts[FOLDED_NAME]);
    TextAskTotal(text, texts[SEARCH_NAME], slot, row.texts[SEARCH_NAME]);
    TextAskTotal(text, texts[NAME], slot, row.texts[NAME]);
    TextAskTotal(text, texts[FOLDED_NAME], slot, row.texts[FOLDED_NAME]);
    TextAskTotal(text, texts[PARENT], slot, row.texts[PARENT]);
    PathAskTotal(text, paths[PATH], slot, row.paths[PATH]);
    PathAskTotal(text, paths[FOLDED_PATH], slot, row.paths[FOLDED_PATH]);
    PathAskTotal(text, paths[SEARCH_PATH], slot, row.paths[SEARCH_PATH]);
    TotalJoined(a + b, c);
    TotalJoined(a, b);
    var p := PathAsk(text, paths[PATH], slot, row.paths[PATH]);
    var q := ParentAsk(
      text, texts[PARENT], PrefixThen(text, paths[PATH], slot, row.paths[PATH]), slot, row.texts[PARENT]);
    TotalNothing();
    TotalJoined(p, q);
    TotalJoined(
      PathAsk(text, paths[FOLDED_PATH], slot, row.paths[FOLDED_PATH]),
      PathAsk(text, paths[SEARCH_PATH], slot, row.paths[SEARCH_PATH]));
    TotalJoined(NameAsks(text, texts, slot, row), PairAsks(text, texts, paths, slot, row));
    TotalJoined(
      NameAsks(text, texts, slot, row) + PairAsks(text, texts, paths, slot, row), SearchAsks(text, paths, slot, row));
  }

  lemma TotalNothing()
    ensures Lengths([]) == 0
  {
  }

  /** A row without text needs no room. */
  lemma NothingNeeded(b: Block, pending: Option<map<Bytes, TextRef>>, slot: nat, row: Row)
    requires TextsSound(b.text, b.texts) && PathsSound(b.text, b.paths) && slot <= |b.texts[PARENT]|
    requires Weight(row) == 0
    ensures Needed(b, pending, slot, row) == 0
  {
    NeededBound(b, pending, slot, row);
  }

  // ---------- A grown arena asks for the same ----------

  lemma GrownTextAsk(a: Bytes, b: Bytes, column: seq<TextRef>, slot: nat, value: Bytes)
    requires Grown(a, b) && Readable(a, column)
    ensures Readable(b, column) && TextAsk(b, column, slot, value) == TextAsk(a, column, slot, value)
  {
    forall i | 0 <= i < |column| ensures Fits(b, column[i]) && TextAt(b, column[i]) == TextAt(a, column[i]) {
      GrownReads(a, b, column[i]);
    }
  }

  lemma GrownPathAsk(a: Bytes, b: Bytes, column: seq<PathRef>, slot: nat, value: Bytes)
    requires Grown(a, b) && PathsFit(a, column)
    ensures PathsFit(b, column) && PathAsk(b, column, slot, value) == PathAsk(a, column, slot, value)
    ensures PrefixThen(b, column, slot, value) == PrefixThen(a, column, slot, value)
  {
    forall i | 0 <= i < |column|
      ensures PathFits(b, column[i]) && PathAt(b, column[i]) == PathAt(a, column[i])
      ensures TextAt(b, column[i].prefix) == TextAt(a, column[i].prefix)
    {
      GrownReads(a, b, column[i].prefix);
      GrownReads(a, b, column[i].suffix);
    }
  }
}
