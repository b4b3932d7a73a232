/** A column block that rows are written into in place, and the reclamation of its text
  * (core/src/entry_table.rs). */
module EntryChunks {
  import opened Common
  import opened TextArena
  import opened EntryBlock
  import opened Interning

  method SetColumn<T(==)>(column: seq<T>, slot: nat, value: T) returns (result: seq<T>)
    requires slot <= |column|
    ensures result == Stored(column, slot, value)
  {
    result := column;
    if slot < |column| && column[slot] == value {
      return;
    }
    if slot == |column| {
      result := column + [value];
    } else {
      result := column[slot := value];
    }
  }

  /** The interning dictionary: every key is what its reference reads. */
  ghost predicate DictionaryReads(text: Bytes, dictionary: map<Bytes, TextRef>) {
    forall key :: key in dictionary ==> Fits(text, dictionary[key]) && TextAt(text, dictionary[key]) == key
  }

  ghost predicate PendingReads(text: Bytes, pending: Option<map<Bytes, TextRef>>) {
    pending.Some? ==> DictionaryReads(text, pending.value)
  }

  ghost predicate ArenaSound(
    text: Bytes, texts: seq<seq<TextRef>>, paths: seq<seq<PathRef>>, pending: Option<map<Bytes, TextRef>>)
  {
    |text| <= U32_MAX && TextsSound(text, texts) && PathsSound(text, paths) && PendingReads(text, pending)
  }

  lemma GrownSound(
    before: Bytes, after: Bytes, texts: seq<seq<TextRef>>, paths: seq<seq<PathRef>>,
        pending: Option<map<Bytes, TextRef>>)
    requires ArenaSound(before, texts, paths, pending) && Grown(before, after) && |after| <= U32_MAX
    ensures ArenaSound(after, texts, paths, pending)
  {
    forall c | 0 <= c < TEXTS ensures Readable(after, texts[c]) {
    }
    forall c | 0 <= c < PATHS ensures PathsFit(after, paths[c]) {
    }
    if pending.Some? {
      forall key | key in pending.value
        ensures Fits(after, pending.value[key]) && TextAt(after, pending.value[key]) == key
      {
        GrownReads(before, after, pending.value[key]);
      }
    }
  }

  lemma GrownTrans(a: Bytes, b: Bytes, c: Bytes)
    requires Grown(a, b) && Grown(b, c)
    ensures Grown(a, c)
  {
    assert c[..|a|] == c[..|b|][..|a|];
  }

  class EntryChunk {
    var numbers: seq<seq<int>>
    var texts: seq<seq<TextRef>>
    var paths: seq<seq<PathRef>>
    var tags: seq<seq<nat>>
    var states: seq<bv8>
    var text: Bytes
    var labels: seq<Bytes>
    var properties: map<nat, Value>
    var pending: Option<map<Bytes, TextRef>>

    function Contents(): Block
      reads this
    {
      Block(numbers, texts, paths, tags, states, text, labels, properties)
    }

    function Len(): nat
      reads this
    {
      |states|
    }

    ghost predicate Valid()
      reads this
    {
      Sound(Contents(), Len()) && PendingReads(text, pending)
    }

    ghost function Rows(): (rows: seq<Row>)
      requires Valid()
      reads this
      ensures |rows| == Len()
    {
      RowsOf(Contents(), Len())
    }

    /** The entry view of a slot. */
    function At(slot: nat): (row: Row)
      requires Valid() && slot < Len()
      reads this
      ensures row == Rows()[slot]
    {
      RowOf(Contents(), Len(), slot)
    }

    constructor ()
      ensures Valid() && Len() == 0 && Contents() == EMPTY_BLOCK && pending == None
    {
      numbers := [[], [], [], [], [], [], [], [], [], []];
      texts := [[], [], [], []];
      paths := [[], [], []];
      tags := [[], [], []];
      states := [];
      text := [];
      labels := [];
      properties := map[];
      pending := None;
    }

    /** TextData::append, which panics when the arena would pass 4 GiB. */
    method Append(value: Bytes) returns (ok: bool, r: TextRef)
      modifies `text
      ensures ok <==> |old(text)| + |value| <= U32_MAX
      ensures text == if ok then old(text) + value else old(text)
      ensures ok ==> Fits(text, r) && TextAt(text, r) == value
    {
      r := TextRef(|text|, |value|);
      ok := |text| + |value| <= U32_MAX;
      if ok {
        text := text + value;
      }
    }

    /** The dictionary that intern_update builds on first use: the first reference for every live text. */
    method BuildDictionary() returns (dictionary: map<Bytes, TextRef>)
      requires TextsSound(text, texts) && PathsSound(text, paths)
      ensures DictionaryReads(text, dictionary)
      ensures dictionary.Keys == KnownTexts(text, texts, paths, None)
    {
      var refs := References(texts, paths);
      ReferencesReadable(text, texts, paths);
      dictionary := map[];
      for i := 0 to |refs|
        invariant DictionaryReads(text, dictionary)
        invariant forall j :: 0 <= j < i ==> TextAt(text, refs[j]) in dictionary
        invariant forall key :: key in dictionary ==> exists j :: 0 <= j < i && TextAt(text, refs[j]) == key
      {
        var key := TextAt(text, refs[i]);
        if key !in dictionary {
          dictionary := dictionary[key := refs[i]];
        }
      }
      forall key ensures key in dictionary <==> key in KnownTexts(text, texts, paths, None) {
        if key in dictionary {
          var j :| 0 <= j < |refs| && TextAt(text, refs[j]) == key;
          assert refs[j] in refs;
        }
      }
    }

    /** The texts that interning finds without growing the arena. */
    ghost function Known(): set<Bytes>
      reads `texts, `paths, `text, `pending
    {
      KnownTexts(text, texts, paths, pending)
    }

    method InternUpdate(value: Bytes) returns (ok: bool, r: TextRef)
      requires ArenaSound(text, texts, paths, pending)
      modifies `text, `pending
      ensures ArenaSound(text, texts, paths, pending) && Grown(old(text), text) && pending.Some?
      ensures ok <==> value in old(Known()) || |old(text)| + |value| <= U32_MAX
      ensures ok ==> Fits(text, r) && TextAt(text, r) == value
      ensures text == if ok && value !in old(Known()) then old(text) + value else old(text)
      ensures Known() == old(Known()) + if ok then {value} else {}
    {
      if pending.None? {
        var dictionary := BuildDictionary();
        pending := Some(dictionary);
      }
      if value in pending.value {
        ok, r := true, pending.value[value];
      } else {
        ghost var before := text;
        ok, r := Append(value);
        if !ok {
          return;
        }
        assert Grown(before, text);
        GrownSound(before, text, texts, paths, pending);
        pending := Some(pending.value[value := r]);
      }
    }

    /** Interning one value, as one step of many. */
    method Ask(value: Bytes) returns (ok: bool, r: TextRef)
      requires ArenaSound(text, texts, paths, pending)
      modifies `text, `pending
      ensures ArenaSound(text, texts, paths, pending) && Grown(old(text), text) && pending.Some?
      ensures ok ==> Fits(text, r) && TextAt(text, r) == value
      ensures Interned(|old(text)|, old(Known()), [value], ok, |text|, Known())
    {
      ok, r := InternUpdate(value);
      assert [value][..0] == [] && Members([value]) == {value};
      assert Cost(old(Known()), [value]) == if value in old(Known()) then 0 else |value|;
    }

    /** set, for one text column other than the parent: intern only a text the slot does not read yet. */
    method SetText(c: nat, slot: nat, value: Bytes) returns (ok: bool)
      requires ArenaSound(text, texts, paths, pending) && c < TEXTS && slot <= |texts[c]|
      modifies `texts, `text, `pending
      ensures ArenaSound(text, texts, paths, pending) && Grown(old(text), text)
      ensures |texts| == TEXTS && forall d :: 0 <= d < TEXTS && d != c ==> texts[d] == old(texts[d])
      ensures ok ==> Written(text, texts[c], old(texts[c]), slot, value)
      ensures Interned(|old(text)|, old(Known()), old(TextAsk(text, texts[c], slot, value)), ok, |text|, Known())
      ensures old(TextAsk(text, texts[c], slot, value)) == [] ==>
                text == old(text) && texts == old(texts) && pending == old(pending)
      ensures old(TextAsk(text, texts[c], slot, value)) != [] || old(pending).Some? ==> pending.Some?
    {
      hide Interned, KnownTexts;
      ghost var before := texts[c];
      ok := true;
      if slot == |texts[c]| || TextAt(text, texts[c][slot]) != value {
        var r;
        ok, r := Ask(value);
        if !ok {
          return;
        }
        ghost var prior := texts;
        var column := SetColumn(texts[c], slot, r);
        texts := texts[c := column];
        assert Readable(text, column);
        SameDictionary(text, prior, paths, texts, paths, pending);
      } else {
        InternedNothing(|text|, Known());
        assert texts[c] == Stored(before, slot, texts[c][slot]);
      }
    }

    method SplitPath(value: Bytes) returns (ok: bool, path: PathRef)
      requires ArenaSound(text, texts, paths, pending)
      modifies `text, `pending
      ensures ArenaSound(text, texts, paths, pending) && Grown(old(text), text) && pending.Some?
      ensures ok ==> PathFits(text, path) && PathAt(text, path) == value
      ensures ok ==> TextAt(text, path.prefix) == value[..SplitAt(value)]
      ensures Interned(
                |old(text)|, old(Known()), [value[..SplitAt(value)], value[SplitAt(value)..]], ok, |text|, Known())
    {
      hide Interned, KnownTexts;
      var split := SplitAt(value);
      assert value == value[..split] + value[split..];
      ghost var before, known := text, Known();
      path := PathRef(TextRef(0, 0), TextRef(0, 0));
      var prefix, suffix;
      ok, prefix := Ask(value[..split]);
      ghost var middle, knownMiddle := text, Known();
      assert [value[..split], value[split..]] == [value[..split]] + [value[split..]];
      if !ok {
        InternedFailed(
          |before|, known, [value[..split]], [value[split..]], |middle|, knownMiddle, |text|, Known());
        return;
      }
      ok, suffix := Ask(value[split..]);
      GrownTrans(before, middle, text);
      InternedJoined(
        |before|, known, [value[..split]], |middle|, knownMiddle, [value[split..]], ok, |text|, Known());
      if !ok {
        return;
      }
      GrownReads(middle, text, prefix);
      path := PathRef(prefix, suffix);
    }

    method SetPath(c: nat, slot: nat, value: Bytes) returns (ok: bool)
      requires ArenaSound(text, texts, paths, pending) && c < PATHS && slot <= |paths[c]|
      modifies `paths, `text, `pending
      ensures ArenaSound(text, texts, paths, pending) && Grown(old(text), text)
      ensures |paths| == PATHS && forall d :: 0 <= d < PATHS && d != c ==> paths[d] == old(paths[d])
      ensures ok ==> PathWritten(text, paths[c], old(paths[c]), slot, value)
      ensures ok ==> TextAt(text, paths[c][slot].prefix) == old(PrefixThen(text, paths[c], slot, value))
      ensures Interned(|old(text)|, old(Known()), old(PathAsk(text, paths[c], slot, value)), ok, |text|, Known())
      ensures old(PathAsk(text, paths[c], slot, value)) == [] ==>
                text == old(text) && paths == old(paths) && pending == old(pending)
      ensures old(PathAsk(text, paths[c], slot, value)) != [] || old(pending).Some? ==> pending.Some?
    {
      hide Interned, KnownTexts;
      ghost var before := paths[c];
      ok := true;
      if slot == |paths[c]| || PathAt(text, paths[c][slot]) != value {
        var path;
        ok, path := SplitPath(value);
        if !ok {
          return;
        }
        ghost var prior := paths;
        var column := SetColumn(paths[c], slot, path);
        paths := paths[c := column];
        assert PathsFit(text, column);
        SameDictionary(text, texts, prior, texts, paths, pending);
      } else {
        InternedNothing(|text|, Known());
        assert paths[c] == Stored(before, slot, paths[c][slot]);
      }
    }

    /** set, for the parent: a parent that begins the path's prefix is stored as a part of it. */
    method SetParent(slot: nat, value: Bytes) returns (ok: bool)
      requires ArenaSound(text, texts, paths, pending) && slot <= |texts[PARENT]| && slot < |paths[PATH]|
      modifies `texts, `text, `pending
      ensures ArenaSound(text, texts, paths, pending) && Grown(old(text), text)
      ensures |texts| == TEXTS && forall d :: 0 <= d < TEXTS && d != PARENT ==> texts[d] == old(texts[d])
      ensures ok ==> Written(text, texts[PARENT], old(texts[PARENT]), slot, value)
      ensures var ask := old(ParentAsk(text, texts[PARENT], TextAt(text, paths[PATH][slot].prefix), slot, value));
              && (ask != [] || old(pending).Some? ==>
                    pending.Some? && Interned(|old(text)|, old(Known()), ask, ok, |text|, Known()))
              && (ask == [] ==>
                    && ok && text == old(text) && pending == old(pending)
                    && texts == old(texts)[PARENT :=
                         ParentColumn(text, old(texts)[PARENT], paths[PATH][slot].prefix, slot, value)])
    {
      hide Interned, KnownTexts;
      ghost var before := texts[PARENT];
      ok := true;
      if slot == |texts[PARENT]| || TextAt(text, texts[PARENT][slot]) != value {
        var prefix := paths[PATH][slot].prefix;
        var r;
        if value <= TextAt(text, prefix) {
          r := TextRef(prefix.offset, |value|);
          assert TextAt(text, r) == TextAt(text, prefix)[..|value|];
          InternedNothing(|text|, Known());
        } else {
          ok, r := Ask(value);
          if !ok {
            return;
          }
        }
        ghost var prior := texts;
        var column := SetColumn(texts[PARENT], slot, r);
        texts := texts[PARENT := column];
        assert Readable(text, column);
        if pending.Some? {
          SameDictionary(text, prior, paths, texts, paths, pending);
        }
      } else {
        InternedNothing(|text|, Known());
        assert texts == texts[PARENT := texts[PARENT]];
        assert texts[PARENT] == Stored(before, slot, texts[PARENT][slot]);
      }
    }

    /** label: the position of an equal label, or a new one at the end. */
    method Label(value: Bytes) returns (position: nat)
      modifies `labels
      ensures Extended(old(labels), labels) && position < |labels| && labels[position] == value
      ensures value in old(labels) ==> labels == old(labels)
    {
      position := 0;
      while position < |labels|
        invariant position <= |labels|
        invariant value !in labels[..position]
        invariant labels == old(labels)
      {
        if labels[position] == value {
          return;
        }
        position := position + 1;
      }
      labels := labels + [value];
    }

    method SetLabel(c: nat, slot: nat, value: Bytes)
      requires |tags| == LABELS && c < LABELS && slot <= |tags[c]|
      modifies `labels, `tags
      ensures Extended(old(labels), labels)
      ensures |tags| == LABELS && forall d :: 0 <= d < LABELS && d != c ==> tags[d] == old(tags[d])
      ensures TagWritten(labels, tags[c], old(tags[c]), slot, value)
    {
      var position := Label(value);
      var column := SetColumn(tags[c], slot, position);
      tags := tags[c := column];
    }

    method SetLabels(slot: nat, row: Row)
      requires |tags| == LABELS && Reach(tags, slot)
      modifies `labels, `tags
      ensures Extended(old(labels), labels) && TagsWritten(labels, tags, old(tags), slot, row)
    {
      for c := 0 to LABELS
        invariant Extended(old(labels), labels) && |tags| == LABELS
        invariant forall d :: 0 <= d < c ==> TagWritten(labels, tags[d], old(tags[d]), slot, row.labels[d])
        invariant forall d :: c <= d < LABELS ==> tags[d] == old(tags[d])
      {
        ghost var before := labels;
        SetLabel(c, slot, row.labels[c]);
        assert forall d :: 0 <= d < |before| ==> labels[..|before|][d] == before[d];
      }
    }

    method SetNumbers(slot: nat, row: Row)
      requires |numbers| == NUMBERS && Reach(numbers, slot)
      modifies `numbers
      ensures NumbersWritten(numbers, old(numbers), slot, row)
    {
      for c := 0 to NUMBERS
        invariant |numbers| == NUMBERS
        invariant forall d :: 0 <= d < c ==> numbers[d] == Stored(old(numbers[d]), slot, row.numbers[d])
        invariant forall d :: c <= d < NUMBERS ==> numbers[d] == old(numbers[d])
      {
        var column := SetColumn(numbers[c], slot, row.numbers[c]);
        numbers := numbers[c := column];
      }
    }

    method SetProperties(slot: nat, row: Row)
      requires slot <= |states|
      modifies `states, `properties
      ensures states == Stored(old(states), slot, StateBits(row))
      ensures properties == StoredProperties(old(properties), slot, row.properties)
    {
      states := SetColumn(states, slot, StateBits(row));
      if row.properties.Other? {
        if slot !in properties || properties[slot] != row.properties {
          properties := properties[slot := row.properties];
        }
      } else if slot in properties {
        properties := properties - {slot};
      }
    }

    method SetNames(slot: nat, row: Row) returns (ok: bool)
      requires ArenaSound(text, texts, paths, pending)
      requires forall c :: 0 <= c < TEXTS ==> slot <= |texts[c]|
      modifies `texts, `text, `pending
      ensures ArenaSound(text, texts, paths, pending) && Grown(old(text), text)
      ensures ok ==>
                forall c :: 0 <= c < TEXTS && c != PARENT ==> Written(text, texts[c], old(texts[c]), slot, row.texts[c])
      ensures texts[PARENT] == old(texts[PARENT])
      ensures Interned(|old(text)|, old(Known()), old(NameAsks(text, texts, slot, row)), ok, |text|, Known())
      ensures old(NameAsks(text, texts, slot, row)) == [] ==>
                text == old(text) && texts == old(texts) && pending == old(pending)
      ensures old(NameAsks(text, texts, slot, row)) != [] || old(pending).Some? ==> pending.Some?
    {
      hide Interned, KnownTexts, TextAsk;
      ghost var a, knownA := text, Known();
      ghost var first := TextAsk(text, texts[SEARCH_NAME], slot, row.texts[SEARCH_NAME]);
      ghost var second := TextAsk(text, texts[NAME], slot, row.texts[NAME]);
      ghost var third := TextAsk(text, texts[FOLDED_NAME], slot, row.texts[FOLDED_NAME]);
      assert first + second + third == first + (second + third);
      ok := SetText(SEARCH_NAME, slot, row.texts[SEARCH_NAME]);
      ghost var b, knownB := text, Known();
      if !ok {
        FailedAsked(|a|, knownA, first, |b|, knownB);
        InternedFailed(|a|, knownA, first, second + third, |b|, knownB, |text|, Known());
        return;
      }
      GrownTextAsk(a, b, old(texts[NAME]), slot, row.texts[NAME]);
      GrownTextAsk(a, b, old(texts[FOLDED_NAME]), slot, row.texts[FOLDED_NAME]);
      ok := SetText(NAME, slot, row.texts[NAME]);
      ghost var c, knownC := text, Known();
      GrownTrans(a, b, c);
      InternedJoined(|a|, knownA, first, |b|, knownB, second, ok, |c|, knownC);
      if !ok {
        FailedAsked(|a|, knownA, first + second, |c|, knownC);
        InternedFailed(|a|, knownA, first + second, third, |c|, knownC, |text|, Known());
        return;
      }
      WrittenGrown(b, c, texts[SEARCH_NAME], old(texts[SEARCH_NAME]), slot, row.texts[SEARCH_NAME]);
      GrownTextAsk(b, c, old(texts[FOLDED_NAME]), slot, row.texts[FOLDED_NAME]);
      ok := SetText(FOLDED_NAME, slot, row.texts[FOLDED_NAME]);
      GrownTrans(a, c, text);
      InternedJoined(|a|, knownA, first + second, |c|, knownC, third, ok, |text|, Known());
      if !ok {
        return;
      }
      WrittenGrown(c, text, texts[SEARCH_NAME], old(texts[SEARCH_NAME]), slot, row.texts[SEARCH_NAME]);
      WrittenGrown(c, text, texts[NAME], old(texts[NAME]), slot, row.texts[NAME]);
    }

    method SetPathAndParent(slot: nat, row: Row) returns (ok: bool)
      requires ArenaSound(text, texts, paths, pending) && slot <= |texts[PARENT]| && slot <= |paths[PATH]|
      modifies `texts, `paths, `text, `pending
      ensures ArenaSound(text, texts, paths, pending) && Grown(old(text), text)
      ensures forall c :: 0 <= c < TEXTS && c != PARENT ==> texts[c] == old(texts[c])
      ensures forall c :: 0 <= c < PATHS && c != PATH ==> paths[c] == old(paths[c])
      ensures ok ==> Written(text, texts[PARENT], old(texts[PARENT]), slot, row.texts[PARENT])
      ensures ok ==> PathWritten(text, paths[PATH], old(paths[PATH]), slot, row.paths[PATH])
      ensures Interned(
                |old(text)|, old(PairKnown(text, texts, paths, pending, slot, row)),
                old(PairAsks(text, texts, paths, slot, row)), ok, |text|, Known())
    {
      hide Interned, KnownTexts, PathAsk, TextAsk;
      ghost var a, knownA := text, Known();
      ghost var first := PathAsk(text, paths[PATH], slot, row.paths[PATH]);
      ghost var prefix := PrefixThen(text, paths[PATH], slot, row.paths[PATH]);
      ghost var second := ParentAsk(text, texts[PARENT], prefix, slot, row.texts[PARENT]);
      ok := SetPath(PATH, slot, row.paths[PATH]);
      ghost var b, knownB := text, Known();
      if !ok {
        FailedAsked(|a|, knownA, first, |b|, knownB);
        InternedFailed(|a|, knownA, first, second, |b|, knownB, |text|, Known());
        return;
      }
      GrownTextAsk(a, b, texts[PARENT], slot, row.texts[PARENT]);
      ok := SetParent(slot, row.texts[PARENT]);
      GrownTrans(a, b, text);
      if first != [] || second != [] || old(pending).Some? {
        InternedJoined(|a|, knownA, first, |b|, knownB, second, ok, |text|, Known());
      } else {
        InternedNothing(|text|, Known());
        assert first + second == [];
      }
      if !ok {
        return;
      }
      PathWrittenGrown(b, text, paths[PATH], old(paths[PATH]), slot, row.paths[PATH]);
    }

    method SetSearchPaths(slot: nat, row: Row) returns (ok: bool)
      requires ArenaSound(text, texts, paths, pending)
      requires slot <= |paths[FOLDED_PATH]| && slot <= |paths[SEARCH_PATH]|
      modifies `paths, `text, `pending
      ensures ArenaSound(text, texts, paths, pending) && Grown(old(text), text)
      ensures paths[PATH] == old(paths[PATH])
      ensures ok ==> PathWritten(text, paths[FOLDED_PATH], old(paths[FOLDED_PATH]), slot, row.paths[FOLDED_PATH])
      ensures ok ==> PathWritten(text, paths[SEARCH_PATH], old(paths[SEARCH_PATH]), slot, row.paths[SEARCH_PATH])
      ensures Interned(|old(text)|, old(Known()), old(SearchAsks(text, paths, slot, row)), ok, |text|, Known())
    {
      hide Interned, KnownTexts, PathAsk;
      ghost var a, knownA := text, Known();
      ghost var first := PathAsk(text, paths[FOLDED_PATH], slot, row.paths[FOLDED_PATH]);
      ghost var second := PathAsk(text, paths[SEARCH_PATH], slot, row.paths[SEARCH_PATH]);
      ok := SetPath(FOLDED_PATH, slot, row.paths[FOLDED_PATH]);
      ghost var b, knownB := text, Known();
      if !ok {
        InternedFailed(|a|, knownA, first, second, |b|, knownB, |text|, Known());
        return;
      }
      GrownPathAsk(a, b, paths[SEARCH_PATH], slot, row.paths[SEARCH_PATH]);
      ok := SetPath(SEARCH_PATH, slot, row.paths[SEARCH_PATH]);
      GrownTrans(a, b, text);
      InternedJoined(|a|, knownA, first, |b|, knownB, second, ok, |text|, Known());
      if !ok {
        return;
      }
      PathWrittenGrown(b, text, paths[FOLDED_PATH], old(paths[FOLDED_PATH]), slot, row.paths[FOLDED_PATH]);
    }

    /** The names, the path and the parent, in the order of the source. */
    method SetNamesAndPath(slot: nat, row: Row) returns (ok: bool)
      requires ArenaSound(text, texts, paths, pending) && Reach(texts, slot) && Reach(paths, slot)
      modifies `texts, `paths, `text, `pending
      ensures ArenaSound(text, texts, paths, pending) && Grown(old(text), text)
      ensures ok ==> TextsWritten(text, texts, old(texts), slot, row)
      ensures ok ==> PathWritten(text, paths[PATH], old(paths[PATH]), slot, row.paths[PATH])
      ensures paths[FOLDED_PATH] == old(paths[FOLDED_PATH]) && paths[SEARCH_PATH] == old(paths[SEARCH_PATH])
      ensures Interned(
                |old(text)|, old(RowKnown(text, texts, paths, pending, slot, row)),
                old(NameAsks(text, texts, slot, row) + PairAsks(text, texts, paths, slot, row)), ok, |text|, Known())
    {
      hide Readable, PathsFit, PendingReads, Interned, KnownTexts, NameAsks, PathAsk, TextAsk, PrefixThen;
      ghost var a, knownA := text, Known();
      ghost var first := NameAsks(text, texts, slot, row);
      ghost var second := PairAsks(text, texts, paths, slot, row);
      ghost var known := RowKnown(text, texts, paths, pending, slot, row);
      ok := SetNames(slot, row);
      ghost var b, knownB := text, Known();
      if !ok {
        FailedAsked(|a|, knownA, first, |b|, knownB);
        InternedFailed(|a|, knownA, first, second, |b|, knownB, |text|, Known());
        return;
      }
      GrownPathAsk(a, b, paths[PATH], slot, row.paths[PATH]);
      GrownTextAsk(a, b, texts[PARENT], slot, row.texts[PARENT]);
      ok := SetPathAndParent(slot, row);
      GrownTrans(a, b, text);
      if first == [] {
        assert first + second == second;
      } else {
        InternedJoined(|a|, knownA, first, |b|, knownB, second, ok, |text|, Known());
      }
      if !ok {
        return;
      }
      TextsGathered(b, text, texts, old(texts), slot, row);
    }

    /** The text half of set, in the order of the source. */
    method SetReferences(slot: nat, row: Row) returns (ok: bool)
      requires ArenaSound(text, texts, paths, pending) && Reach(texts, slot) && Reach(paths, slot)
      modifies `texts, `paths, `text, `pending
      ensures ArenaSound(text, texts, paths, pending) && Grown(old(text), text)
      ensures ok ==> TextsWritten(text, texts, old(texts), slot, row)
      ensures ok ==> PathsWritten(text, paths, old(paths), slot, row)
      ensures Interned(
                |old(text)|, old(RowKnown(text, texts, paths, pending, slot, row)),
                old(RowAsks(text, texts, paths, slot, row)), ok, |text|, Known())
    {
      hide Readable, PathsFit, PendingReads, Interned, KnownTexts, NameAsks, PairAsks, PathAsk, RowKnown;
      ghost var a, known := text, RowKnown(text, texts, paths, pending, slot, row);
      ghost var first := NameAsks(text, texts, slot, row) + PairAsks(text, texts, paths, slot, row);
      ghost var second := SearchAsks(text, paths, slot, row);
      ok := SetNamesAndPath(slot, row);
      ghost var b, knownB := text, Known();
      if !ok {
        InternedFailed(|a|, known, first, second, |b|, knownB, |text|, Known());
        return;
      }
      GrownPathAsk(a, b, paths[FOLDED_PATH], slot, row.paths[FOLDED_PATH]);
      GrownPathAsk(a, b, paths[SEARCH_PATH], slot, row.paths[SEARCH_PATH]);
      ok := SetSearchPaths(slot, row);
      GrownTrans(a, b, text);
      InternedJoined(|a|, known, first, |b|, knownB, second, ok, |text|, Known());
      if !ok {
        return;
      }
      TextsGrown(b, text, texts, old(texts), slot, row);
      PathWrittenGrown(b, text, paths[PATH], old(paths[PATH]), slot, row.paths[PATH]);
    }

    method SetTags(slot: nat, row: Row)
      requires |tags| == LABELS && Reach(tags, slot) && slot <= |states|
      modifies `labels, `tags, `states, `properties
      ensures Extended(old(labels), labels) && TagsWritten(labels, tags, old(tags), slot, row)
      ensures states == Stored(old(states), slot, StateBits(row))
      ensures properties == StoredProperties(old(properties), slot, row.properties)
    {
      SetLabels(slot, row);
      SetProperties(slot, row);
    }

    method SetColumns(slot: nat, row: Row) returns (ok: bool)
      requires ArenaSound(text, texts, paths, pending)
      requires |numbers| == NUMBERS && Reach(numbers, slot) && Reach(texts, slot) && Reach(paths, slot)
      requires |tags| == LABELS && Reach(tags, slot) && slot <= |states|
      modifies this
      ensures ArenaSound(text, texts, paths, pending) && Grown(old(text), text)
      ensures ok ==> RowWritten(old(Contents()), Contents(), slot, row)
      ensures ok <==> |old(text)| + old(Needed(Contents(), pending, slot, row)) <= U32_MAX
      ensures ok ==> |text| == |old(text)| + old(Needed(Contents(), pending, slot, row))
    {
      hide NumbersWritten, TextsWritten, PathsWritten, TagsWritten, Readable, PathsFit, PendingReads;
      hide RowKnown, RowAsks;
      SetNumbers(slot, row);
      ok := SetReferences(slot, row);
      if !ok {
        return;
      }
      SetTags(slot, row);
    }

    /** EntryChunk::set: the block then holds the row in the slot, and in every other slot what it held. The
      * arena grows by exactly the bytes that the row needs, and where they have no room append panics. The
      * block is then left half written, and nothing is promised about it. */
    method Set(slot: nat, row: Row) returns (ok: bool)
      requires Valid() && slot <= Len()
      modifies this
      ensures ok ==> Valid() && Len() == Taller(old(Len()), slot) && Rows() == Stored(old(Rows()), slot, row)
      ensures ok <==> |old(text)| + old(Needed(Contents(), pending, slot, row)) <= U32_MAX
      ensures ok ==> Grown(old(text), text) && |text| == |old(text)| + old(Needed(Contents(), pending, slot, row))
    {
      ghost var before, n := Contents(), Len();
      SoundReach(before, n, slot);
      ok := SetColumns(slot, row);
      if !ok {
        return;
      }
      RowWrittenMeans(before, Contents(), n, slot, row);
    }

    /** A block of given contents. */
    constructor Of(b: Block, dictionary: Option<map<Bytes, TextRef>>)
      requires Sound(b, |b.states|) && PendingReads(b.text, dictionary)
      ensures Valid() && Contents() == b && pending == dictionary && Len() == |b.states|
    {
      numbers, texts, paths, tags, states := b.numbers, b.texts, b.paths, b.tags, b.states;
      text, labels, properties, pending := b.text, b.labels, b.properties, dictionary;
    }

    /** A block with the same contents, as cloning it makes. */
    constructor Copy(other: EntryChunk)
      requires other.Valid()
      ensures Valid() && Contents() == other.Contents() && pending == other.pending && Rows() == other.Rows()
    {
      numbers, texts, paths, tags, states := other.numbers, other.texts, other.paths, other.tags, other.states;
      text, labels, properties, pending := other.text, other.labels, other.properties, other.pending;
    }

    /** compact_text: copy the live ranges, and relocate every reference by binary search. */
    method CompactText(ranges: seq<Range>)
      requires Valid() && Merged(ranges, Spans(References(texts, paths))) && InArena(ranges, |text|)
      modifies `texts, `paths, `text, `pending
      ensures Valid() && Len() == old(Len()) && Rows() == old(Rows())
      ensures |text| == Live(Contents()) == old(Live(Contents()))
      ensures pending == None
    {
      ghost var before, n := Contents(), Len();
      MergedHolds(before, n, ranges);
      ReferencesPlaced(before, n, ranges);
      var packed, placements := Pack(text, ranges);
      texts := RelocateTexts(placements, texts);
      paths := RelocatePaths(placements, paths);
      text := packed;
      pending := None;
      CompactionMeans(before, Contents(), n, ranges);
    }

    /** finish_update, for one block whose text changed: merge the referenced ranges, and compact the
      * arena when more than half of it is dead. */
    method Reclaim()
      requires Valid()
      modifies `texts, `paths, `text, `pending
      ensures Valid() && Len() == old(Len()) && Rows() == old(Rows())
      ensures Live(Contents()) == old(Live(Contents()))
      ensures |old(text)| > 2 * Live(Contents()) ==> |text| == Live(Contents())
      ensures |old(text)| <= 2 * Live(Contents()) ==> Contents() == old(Contents())
      ensures pending.Some? ==> old(pending).Some?
      ensures |text| <= |old(text)|
    {
      var spans := Spans(References(texts, paths));
      var sorted := Sort(spans);
      SortOrdered(spans);
      SortMembers(spans);
      var ranges := Merge(sorted);
      MergedMembers(ranges, sorted, spans);
      MergedHolds(Contents(), Len(), ranges);
      var live := Total(ranges);
      var dead := if live <= |text| then |text| - live else 0;
      if dead > live {
        CompactText(ranges);
      }
    }

    /** compact_integers: the dictionary goes, and equal columns are shared, which no reader can tell. */
    method CompactIntegers()
      requires Valid()
      modifies `texts, `paths, `pending
      ensures Valid() && Contents() == old(Contents()) && pending == None
    {
      pending := None;
      if texts[FOLDED_NAME] == texts[NAME] {
        texts := texts[FOLDED_NAME := texts[NAME]];
      }
      if texts[SEARCH_NAME] == texts[FOLDED_NAME] {
        texts := texts[SEARCH_NAME := texts[FOLDED_NAME]];
      }
      assert texts == old(texts);
      if paths[FOLDED_PATH] == paths[PATH] {
        paths := paths[FOLDED_PATH := paths[PATH]];
      }
      if paths[SEARCH_PATH] == paths[FOLDED_PATH] {
        paths := paths[SEARCH_PATH := paths[FOLDED_PATH]];
      }
      assert paths == old(paths);
    }
  }

  /** The search finds a placement for every nonempty reference. */
  ghost predicate Placed(placements: seq<Placement>, r: TextRef) {
    r.length > 0 ==> Home(placements, r.offset) > 0
  }

  method RelocateColumn(placements: seq<Placement>, column: seq<TextRef>) returns (moved: seq<TextRef>)
    requires StartsOrdered(placements) && forall i :: 0 <= i < |column| ==> Placed(placements, column[i])
    ensures Images(placements, column, moved)
  {
    moved := [];
    for i := 0 to |column|
      invariant Images(placements, column[..i], moved)
    {
      assert Placed(placements, column[i]);
      var r := Relocate(placements, column[i]);
      moved := moved + [r];
    }
    assert column[..|column|] == column;
  }

  method RelocatePathColumn(placements: seq<Placement>, column: seq<PathRef>) returns (moved: seq<PathRef>)
    requires StartsOrdered(placements)
    requires forall i :: 0 <= i < |column| ==>
               Placed(placements, column[i].prefix) && Placed(placements, column[i].suffix)
    ensures PathImages(placements, column, moved)
  {
    moved := [];
    for i := 0 to |column|
      invariant PathImages(placements, column[..i], moved)
    {
      assert Placed(placements, column[i].prefix) && Placed(placements, column[i].suffix);
      var prefix := Relocate(placements, column[i].prefix);
      var suffix := Relocate(placements, column[i].suffix);
      moved := moved + [PathRef(prefix, suffix)];
    }
    assert column[..|column|] == column;
  }

  ghost predicate AllPlaced(placements: seq<Placement>, texts: seq<seq<TextRef>>) {
    forall c, i :: 0 <= c < |texts| && 0 <= i < |texts[c]| ==> Placed(placements, texts[c][i])
  }

  ghost predicate AllPathsPlaced(placements: seq<Placement>, paths: seq<seq<PathRef>>) {
    forall c, i :: 0 <= c < |paths| && 0 <= i < |paths[c]| ==>
      Placed(placements, paths[c][i].prefix) && Placed(placements, paths[c][i].suffix)
  }

  method RelocateTexts(placements: seq<Placement>, texts: seq<seq<TextRef>>) returns (moved: seq<seq<TextRef>>)
    requires StartsOrdered(placements) && AllPlaced(placements, texts)
    ensures |moved| == |texts| && forall c :: 0 <= c < |texts| ==> Images(placements, texts[c], moved[c])
  {
    moved := [];
    for c := 0 to |texts|
      invariant |moved| == c && forall d :: 0 <= d < c ==> Images(placements, texts[d], moved[d])
    {
      var column := RelocateColumn(placements, texts[c]);
      moved := moved + [column];
    }
  }

  method RelocatePaths(placements: seq<Placement>, paths: seq<seq<PathRef>>) returns (moved: seq<seq<PathRef>>)
    requires StartsOrdered(placements) && AllPathsPlaced(placements, paths)
    ensures |moved| == |paths| && forall c :: 0 <= c < |paths| ==> PathImages(placements, paths[c], moved[c])
  {
    moved := [];
    for c := 0 to |paths|
      invariant |moved| == c && forall d :: 0 <= d < c ==> PathImages(placements, paths[d], moved[d])
    {
      var column := RelocatePathColumn(placements, paths[c]);
      moved := moved + [column];
    }
  }

  lemma ReferencesPlaced(b: Block, n: nat, ranges: seq<Range>)
    requires Sound(b, n) && Holding(b, ranges)
    ensures Proper(ranges) && StartsOrdered(Placements(ranges))
    ensures AllPlaced(Placements(ranges), b.texts) && AllPathsPlaced(Placements(ranges), b.paths)
  {
    PlacementsOrdered(ranges);
    forall c, i | 0 <= c < |b.texts| && 0 <= i < |b.texts[c]| ensures Placed(Placements(ranges), b.texts[c][i]) {
      FlatHas(b.texts, c, i);
      RelocatedReads(b.text, ranges, b.texts[c][i]);
    }
    forall c, i | 0 <= c < |b.paths| && 0 <= i < |b.paths[c]|
      ensures Placed(Placements(ranges), b.paths[c][i].prefix) && Placed(Placements(ranges), b.paths[c][i].suffix)
    {
      FlatPathsHas(b.paths, c, i);
      RelocatedReads(b.text, ranges, b.paths[c][i].prefix);
      RelocatedReads(b.text, ranges, b.paths[c][i].suffix);
    }
  }

  lemma SoundReach(b: Block, n: nat, slot: nat)
    requires Sound(b, n) && slot <= n
    ensures Reach(b.numbers, slot) && Reach(b.texts, slot) && Reach(b.paths, slot) && Reach(b.tags, slot)
  {
  }

  ghost predicate Reach<T>(columns: seq<seq<T>>, slot: nat) {
    forall c :: 0 <= c < |columns| ==> slot <= |columns[c]|
  }

  lemma TextsGathered(b: Bytes, c: Bytes, after: seq<seq<TextRef>>, before: seq<seq<TextRef>>, slot: nat, row: Row)
    requires |after| == |before| == TEXTS && Grown(b, c) && Reach(before, slot)
    requires forall d :: 0 <= d < TEXTS && d != PARENT ==> Written(b, after[d], before[d], slot, row.texts[d])
    requires Written(c, after[PARENT], before[PARENT], slot, row.texts[PARENT])
    ensures TextsWritten(c, after, before, slot, row)
  {
    forall d | 0 <= d < TEXTS ensures Written(c, after[d], before[d], slot, row.texts[d]) {
      if d != PARENT {
        WrittenGrown(b, c, after[d], before[d], slot, row.texts[d]);
      }
    }
  }

  lemma TextsGrown(b: Bytes, c: Bytes, after: seq<seq<TextRef>>, before: seq<seq<TextRef>>, slot: nat, row: Row)
    requires Grown(b, c) && TextsWritten(b, after, before, slot, row)
    ensures TextsWritten(c, after, before, slot, row)
  {
    forall d | 0 <= d < TEXTS ensures Written(c, after[d], before[d], slot, row.texts[d]) {
      WrittenGrown(b, c, after[d], before[d], slot, row.texts[d]);
    }
  }

  lemma WrittenGrown(a: Bytes, b: Bytes, after: seq<TextRef>, before: seq<TextRef>, slot: nat, value: Bytes)
    requires slot <= |before| && Written(a, after, before, slot, value) && Grown(a, b)
    ensures Written(b, after, before, slot, value)
  {
    GrownReads(a, b, after[slot]);
  }

  lemma PathWrittenGrown(a: Bytes, b: Bytes, after: seq<PathRef>, before: seq<PathRef>, slot: nat, value: Bytes)
    requires slot <= |before| && PathWritten(a, after, before, slot, value) && Grown(a, b)
    ensures PathWritten(b, after, before, slot, value)
  {
    GrownReads(a, b, after[slot].prefix);
    GrownReads(a, b, after[slot].suffix);
  }
}
