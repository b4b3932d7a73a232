/** The whole table of rows over shared storage: snapshots name blocks, blocks name their parts, and an
  * update of one snapshot reads a block through its handles, changes it, and writes back the parts that
  * differ, copying whatever another snapshot still holds (core/src/entry_table.rs). */
module Snapshots {
  import opened Common
  import opened TextArena
  import opened EntryBlock
  import opened EntryChunks
  import opened EntryTable
  import opened EntryRuns
  import opened Interning
  import S = Sharing

  type Cells = seq<S.Column>

  // ---------- A block as its parts ----------

  const ARENA := 0
  const LABEL_LIST := 1
  const PROPERTY_MAP := 2
  const STATE_BITS := 3
  const DICTIONARY := 4
  const NUMBERS_AT := 5
  const TEXTS_AT := 15
  const PATHS_AT := 19
  const TAGS_AT := 22
  const WIDTH := 25

  predicate Kinds(cells: Cells) {
    && |cells| == WIDTH
    && cells[ARENA].Arena? && cells[LABEL_LIST].Labels? && cells[PROPERTY_MAP].PropertyMap?
    && cells[STATE_BITS].States? && cells[DICTIONARY].Dictionary?
    && (forall c :: NUMBERS_AT <= c < TEXTS_AT ==> cells[c].Numbers?)
    && (forall c :: TEXTS_AT <= c < PATHS_AT ==> cells[c].Texts?)
    && (forall c :: PATHS_AT <= c < TAGS_AT ==> cells[c].Paths?)
    && (forall c :: TAGS_AT <= c < WIDTH ==> cells[c].Tags?)
  }

  function BlockOf(cells: Cells): Block
    requires Kinds(cells)
  {
    Block(
      seq(NUMBERS, c requires 0 <= c < NUMBERS => cells[NUMBERS_AT + c].numbers),
      seq(TEXTS, c requires 0 <= c < TEXTS => cells[TEXTS_AT + c].texts),
      seq(PATHS, c requires 0 <= c < PATHS => cells[PATHS_AT + c].paths),
      seq(LABELS, c requires 0 <= c < LABELS => cells[TAGS_AT + c].tags),
      cells[STATE_BITS].states, cells[ARENA].text, cells[LABEL_LIST].labels, cells[PROPERTY_MAP].properties)
  }

  function PendingOf(cells: Cells): Option<map<Bytes, TextRef>>
    requires Kinds(cells)
  {
    cells[DICTIONARY].dictionary
  }

  predicate Shaped(b: Block) {
    |b.numbers| == NUMBERS && |b.texts| == TEXTS && |b.paths| == PATHS && |b.tags| == LABELS
  }

  function CellsOf(b: Block, pending: Option<map<Bytes, TextRef>>): Cells
    requires Shaped(b)
  {
    [S.Arena(b.text), S.Labels(b.labels), S.PropertyMap(b.properties), S.States(b.states), S.Dictionary(pending)]
    + seq(NUMBERS, c requires 0 <= c < NUMBERS => S.Numbers(b.numbers[c]))
    + seq(TEXTS, c requires 0 <= c < TEXTS => S.Texts(b.texts[c]))
    + seq(PATHS, c requires 0 <= c < PATHS => S.Paths(b.paths[c]))
    + seq(LABELS, c requires 0 <= c < LABELS => S.Tags(b.tags[c]))
  }

  lemma Decoded(b: Block, pending: Option<map<Bytes, TextRef>>)
    requires Shaped(b)
    ensures Kinds(CellsOf(b, pending))
    ensures BlockOf(CellsOf(b, pending)) == b && PendingOf(CellsOf(b, pending)) == pending
  {
    var d := BlockOf(CellsOf(b, pending));
    assert d.numbers == b.numbers && d.texts == b.texts && d.paths == b.paths && d.tags == b.tags;
  }

  lemma Encoded(cells: Cells)
    requires Kinds(cells)
    ensures Shaped(BlockOf(cells)) && CellsOf(BlockOf(cells), PendingOf(cells)) == cells
  {
    var again := CellsOf(BlockOf(cells), PendingOf(cells));
    forall c | 0 <= c < WIDTH ensures again[c] == cells[c] {
    }
  }

  // ---------- A table as its blocks ----------

  /** What a table keeps beside its handles. */
  datatype Meta = Meta(length: nat, textChanges: set<nat>, changedBlocks: set<nat>)

  ghost predicate CellsOk(cells: Cells) {
    && Kinds(cells) && Sound(BlockOf(cells), |BlockOf(cells).states|)
    && PendingReads(BlockOf(cells).text, PendingOf(cells))
  }

  ghost predicate TableOk(view: S.Contents, meta: Meta, rows: seq<Row>) {
    && |rows| == meta.length && |view| == (meta.length + CHUNK_LENGTH - 1) / CHUNK_LENGTH
    && meta.textChanges <= meta.changedBlocks && (forall k :: k in meta.changedBlocks ==> k < |view|)
    && (forall k :: 0 <= k < |view| ==>
          && CellsOk(view[k]) && (PendingOf(view[k]).Some? ==> k in meta.changedBlocks)
          && BlockIs(rows, |view|, k, RowsOf(BlockOf(view[k]), |BlockOf(view[k]).states|)))
  }

  /** A table object whose blocks are these cells. */
  ghost predicate Mirrors(table: EntryTable, view: S.Contents)
    reads table, table.chunks
  {
    && |view| == |table.chunks|
    && forall k :: 0 <= k < |view| ==>
         && Shaped(table.chunks[k].Contents())
         && view[k] == CellsOf(table.chunks[k].Contents(), table.chunks[k].pending)
  }

  lemma MirrorOk(table: EntryTable, view: S.Contents)
    requires table.Valid() && Mirrors(table, view)
    ensures TableOk(view, Meta(table.length, table.textChanges, table.changedBlocks), table.rows)
  {
    hide Sound, RowsOf, BlockIs, CellsOf;
    forall k | 0 <= k < |view|
      ensures Kinds(view[k]) && BlockOf(view[k]) == table.chunks[k].Contents()
      ensures PendingOf(view[k]) == table.chunks[k].pending
    {
      Decoded(table.chunks[k].Contents(), table.chunks[k].pending);
    }
  }

  // ---------- Writing a table back ----------

  /** Write one part of a block if it differs, in place or, with `renew`, as a new one. */
  function PartRun(t: nat, k: nat, before: Cells, after: Cells, c: nat, renew: bool): seq<S.Operation>
    requires c < |before| == |after|
  {
    if before[c] == after[c] then []
    else if renew then [S.Renew(t, k, c, after[c])]
    else [S.Set(t, k, c, after[c])]
  }

  function BlockRun(t: nat, k: nat, before: Cells, after: Cells, n: nat, renew: bool): seq<S.Operation>
    requires n <= |before| == |after|
  {
    if n == 0 then []
    else BlockRun(t, k, before, after, n - 1, renew) + PartRun(t, k, before, after, n - 1, renew)
  }

  predicate SameWidths(before: S.Contents, after: S.Contents) {
    |before| <= |after| && forall k :: 0 <= k < |before| ==> |before[k]| == |after[k]|
  }

  /** Write block k of `after` over that of `before`; a block beyond is pushed. The columns that a finished
    * update relocates are new ones. */
  function SaveBlock(t: nat, before: S.Contents, after: S.Contents, k: nat, finished: set<nat>): seq<S.Operation>
    requires SameWidths(before, after) && k < |after|
  {
    if k >= |before| then [S.Push(t, after[k])]
    else BlockRun(t, k, before[k], after[k], |after[k]|, k in finished)
  }

  function SaveRun(t: nat, before: S.Contents, after: S.Contents, m: nat, finished: set<nat>): seq<S.Operation>
    requires SameWidths(before, after) && m <= |after|
  {
    if m == 0 then []
    else SaveRun(t, before, after, m - 1, finished) + SaveBlock(t, before, after, m - 1, finished)
  }

  /** With the first m blocks written. */
  function Halfway(before: S.Contents, after: S.Contents, m: nat): S.Contents
    requires m <= |after|
  {
    if m < |before| then after[..m] + before[m..] else after[..m]
  }

  ghost predicate On(run: seq<S.Operation>, t: nat) {
    forall i :: 0 <= i < |run| ==> !run[i].New? && !run[i].Clone? && !run[i].Drop? && run[i].t == t
  }

  lemma {:induction false} OwnJoined(contents: S.Contents, run: seq<S.Operation>, more: seq<S.Operation>, t: nat)
    ensures S.Own(contents, run + more, t) == S.Own(S.Own(contents, run, t), more, t)
    decreases |more|
  {
    if more == [] {
      assert run + more == run;
    } else {
      assert (run + more)[..|run + more| - 1] == run + more[..|more| - 1];
      OwnJoined(contents, run, more[..|more| - 1], t);
    }
  }

  lemma OwnPart(contents: S.Contents, t: nat, k: nat, before: Cells, after: Cells, c: nat, renew: bool)
    requires k < |contents| && c < |before| == |after| && contents[k] == after[..c] + before[c..]
    ensures S.Own(contents, PartRun(t, k, before, after, c, renew), t)
         == contents[k := after[..c + 1] + before[c + 1..]]
    ensures On(PartRun(t, k, before, after, c, renew), t)
  {
    assert contents[k][c := after[c]] == after[..c + 1] + before[c + 1..];
    if before[c] != after[c] {
      OwnOne(contents, if renew then S.Renew(t, k, c, after[c]) else S.Set(t, k, c, after[c]), t);
    } else {
      assert contents[k][c := after[c]] == contents[k] && contents[k := contents[k]] == contents;
    }
  }

  lemma {:induction false} OwnBlock(
    contents: S.Contents, t: nat, k: nat, before: Cells, after: Cells, n: nat, renew: bool)
    requires k < |contents| && contents[k] == before && n <= |before| == |after|
    ensures S.Own(contents, BlockRun(t, k, before, after, n, renew), t) == contents[k := after[..n] + before[n..]]
    ensures On(BlockRun(t, k, before, after, n, renew), t)
    decreases n
  {
    hide PartRun, S.Own, On;
    if n > 0 {
      var run, more := BlockRun(t, k, before, after, n - 1, renew), PartRun(t, k, before, after, n - 1, renew);
      OwnBlock(contents, t, k, before, after, n - 1, renew);
      var now := contents[k := after[..n - 1] + before[n - 1..]];
      OwnJoined(contents, run, more, t);
      OwnPart(now, t, k, before, after, n - 1, renew);
      OnJoined(run, more, t);
    } else {
      NothingOwned(contents, t);
      assert after[..0] + before[0..] == before;
    }
  }

  lemma NothingOwned(contents: S.Contents, t: nat)
    ensures S.Own(contents, [], t) == contents && On([], t)
  {
  }

  lemma OwnOne(contents: S.Contents, op: S.Operation, t: nat)
    requires S.Touches(op, t)
    ensures S.Own(contents, [op], t) == S.Edit(contents, op)
  {
    assert [op][..0] == [];
    assert S.Own(contents, [op][..0], t) == contents;
  }

  lemma OwnSavedBlock(t: nat, before: S.Contents, after: S.Contents, k: nat, finished: set<nat>)
    requires SameWidths(before, after) && k < |after|
    ensures S.Own(Halfway(before, after, k), SaveBlock(t, before, after, k, finished), t)
         == Halfway(before, after, k + 1)
    ensures On(SaveBlock(t, before, after, k, finished), t)
  {
    var now := Halfway(before, after, k);
    if k >= |before| {
      OwnOne(now, S.Push(t, after[k]), t);
    } else {
      OwnBlock(now, t, k, before[k], after[k], |after[k]|, k in finished);
      assert after[k][..|after[k]|] + before[k][|after[k]|..] == after[k];
      assert now[k := after[k]] == Halfway(before, after, k + 1);
    }
  }

  lemma {:induction false} OwnSaved(t: nat, before: S.Contents, after: S.Contents, m: nat, finished: set<nat>)
    requires SameWidths(before, after) && m <= |after|
    ensures S.Own(before, SaveRun(t, before, after, m, finished), t) == Halfway(before, after, m)
    ensures On(SaveRun(t, before, after, m, finished), t)
  {
    hide SaveBlock, Halfway, S.Own, On;
    if m > 0 {
      var run, more := SaveRun(t, before, after, m - 1, finished), SaveBlock(t, before, after, m - 1, finished);
      OwnSaved(t, before, after, m - 1, finished);
      OwnJoined(before, run, more, t);
      OwnSavedBlock(t, before, after, m - 1, finished);
      OnJoined(run, more, t);
    } else {
      NothingSaved(t, before, after);
    }
  }

  /** No operation of a run names the block. */
  lemma {:induction false} BlockAlone(t: nat, k: nat, before: Cells, after: Cells, n: nat, renew: bool, j: nat)
    requires n <= |before| == |after| && (j != k || before == after)
    ensures S.BlockUntouched(BlockRun(t, k, before, after, n, renew), t, j)
    decreases n
  {
    if n > 0 { BlockAlone(t, k, before, after, n - 1, renew, j); }
  }

  lemma {:induction false} SavedAlone(
    t: nat, before: S.Contents, after: S.Contents, m: nat, finished: set<nat>, j: nat)
    requires SameWidths(before, after) && m <= |after| && j < |before| && before[j] == after[j]
    ensures S.BlockUntouched(SaveRun(t, before, after, m, finished), t, j)
  {
    if m > 0 {
      SavedAlone(t, before, after, m - 1, finished, j);
      if m - 1 < |before| {
        BlockAlone(t, m - 1, before[m - 1], after[m - 1], |after[m - 1]|, m - 1 in finished, j);
      }
      UntouchedJoined(
        SaveRun(t, before, after, m - 1, finished), SaveBlock(t, before, after, m - 1, finished), t, j);
    }
  }

  lemma UntouchedJoined(run: seq<S.Operation>, more: seq<S.Operation>, t: nat, j: nat)
    requires S.BlockUntouched(run, t, j) && S.BlockUntouched(more, t, j)
    ensures S.BlockUntouched(run + more, t, j)
  {
  }

  lemma NothingSaved(t: nat, before: S.Contents, after: S.Contents)
    ensures S.Own(before, [], t) == before && On([], t)
    ensures |before| <= |after| ==> Halfway(before, after, 0) == before
  {
  }

  lemma OnJoined(run: seq<S.Operation>, more: seq<S.Operation>, t: nat)
    requires On(run, t) && On(more, t)
    ensures On(run + more, t)
  {
  }

  /** compact_integers: equal columns of a changed block become one. */
  function ShareBlock(t: nat, k: nat): seq<S.Operation> {
    [S.Share(t, k, TEXTS_AT + FOLDED_NAME, TEXTS_AT + NAME),
     S.Share(t, k, TEXTS_AT + SEARCH_NAME, TEXTS_AT + FOLDED_NAME),
     S.Share(t, k, PATHS_AT + FOLDED_PATH, PATHS_AT + PATH),
     S.Share(t, k, PATHS_AT + SEARCH_PATH, PATHS_AT + FOLDED_PATH)]
  }

  function ShareRun(t: nat, changed: set<nat>, m: nat): seq<S.Operation> {
    if m == 0 then []
    else ShareRun(t, changed, m - 1) + if m - 1 in changed then ShareBlock(t, m - 1) else []
  }

  lemma {:induction false} ShareRunOn(t: nat, changed: set<nat>, m: nat)
    ensures On(ShareRun(t, changed, m), t)
    ensures forall i :: 0 <= i < |ShareRun(t, changed, m)| ==>
              ShareRun(t, changed, m)[i].Share? && ShareRun(t, changed, m)[i].k in changed
  {
    if m > 0 { ShareRunOn(t, changed, m - 1); }
  }

  lemma {:induction false} OwnShared(contents: S.Contents, run: seq<S.Operation>, t: nat)
    requires forall i :: 0 <= i < |run| ==> run[i].Share?
    ensures S.Own(contents, run, t) == contents
    decreases |run|
  {
    if run != [] { OwnShared(contents, run[..|run| - 1], t); }
  }

  /** A run on one table changes that table alone. */
  lemma {:induction false} OnlyOne(w: S.World, run: seq<S.Operation>, t: nat)
    requires S.Numbered(w) && On(run, t) && t in w.views
    ensures S.Fold(w, run) == S.World(w.views[t := S.Own(w.views[t], run, t)], w.made)
    decreases |run|
  {
    if run != [] {
      OnlyOne(w, run[..|run| - 1], t);
    } else {
      assert w.views[t := w.views[t]] == w.views;
    }
  }

  // ---------- Snapshots that share nothing ----------

  datatype Action = New | Clone(t: nat) | Drop(t: nat) | Change(t: nat, update: Update)

  /** The rows of every living snapshot. */
  datatype State = State(rows: map<nat, seq<Row>>, made: nat)

  /** An action on a snapshot that lives, and a set on a slot that it has. */
  ghost predicate Allowed(s: State, action: Action) {
    action.New? || (action.t in s.rows && (action.Change? ==> InRange(s.rows[action.t], action.update)))
  }

  predicate InRange(rows: seq<Row>, update: Update) {
    update.Set? ==> update.slot < |rows|
  }

  ghost function Updated(rows: seq<Row>, update: Update): seq<Row>
    requires InRange(rows, update)
  {
    match update
    case Push(row) => rows + [row]
    case Set(slot, row) => rows[slot := row]
    case Finish => rows
  }

  ghost function Next(s: State, action: Action): State
    requires Allowed(s, action)
  {
    match action
    case New => State(s.rows[s.made := []], s.made + 1)
    case Clone(t) => State(s.rows[s.made := s.rows[t]], s.made + 1)
    case Drop(t) => State(s.rows - {t}, s.made)
    case Change(t, update) => State(s.rows[t := Updated(s.rows[t], update)], s.made)
  }

  ghost predicate AllAllowed(s: State, actions: seq<Action>)
    decreases |actions|
  {
    actions == [] || (Allowed(s, actions[0]) && AllAllowed(Next(s, actions[0]), actions[1..]))
  }

  ghost function After(s: State, actions: seq<Action>): State
    requires AllAllowed(s, actions)
    decreases |actions|
  {
    if actions == [] then s else After(Next(s, actions[0]), actions[1..])
  }

  /** The bytes in the arena of a block once the row is written into the slot. */
  ghost function BytesThen(cells: Cells, slot: nat, row: Row): nat
    requires CellsOk(cells) && slot <= |BlockOf(cells).states|
  {
    |BlockOf(cells).text| + Needed(BlockOf(cells), PendingOf(cells), slot, row)
  }

  /** The update stores a row that needs more room than there is in the arena of its block. */
  ghost predicate Full(view: S.Contents, meta: Meta, rows: seq<Row>, update: Update)
    requires TableOk(view, meta, rows) && InRange(rows, update)
  {
    match update
    case Push(row) =>
      if meta.length % CHUNK_LENGTH == 0 then Needed(EMPTY_BLOCK, None, 0, row) > U32_MAX
      else
        SlotOk(view, meta, rows, meta.length);
        BytesThen(view[meta.length / CHUNK_LENGTH], meta.length % CHUNK_LENGTH, row) > U32_MAX
    case Set(slot, row) =>
      SlotOk(view, meta, rows, slot);
      BytesThen(view[slot / CHUNK_LENGTH], slot % CHUNK_LENGTH, row) > U32_MAX
    case Finish => false
  }

  /** A slot of the table, or the next one of a block with room to spare, is within its block. */
  lemma SlotOk(view: S.Contents, meta: Meta, rows: seq<Row>, slot: nat)
    requires TableOk(view, meta, rows)
    requires slot < meta.length || (slot == meta.length && slot % CHUNK_LENGTH != 0)
    ensures slot / CHUNK_LENGTH < |view| && CellsOk(view[slot / CHUNK_LENGTH])
    ensures slot % CHUNK_LENGTH <= |BlockOf(view[slot / CHUNK_LENGTH]).states|
  {
    hide Sound;
    var b := BlockOf(view[slot / CHUNK_LENGTH]);
    assert BlockIs(rows, |view|, slot / CHUNK_LENGTH, RowsOf(b, |b.states|));
  }

  lemma FullIsNoRoom(table: EntryTable, view: S.Contents, meta: Meta, update: Update)
    requires table.Valid() && Mirrors(table, view) && InRange(table.rows, update)
    requires meta == Meta(table.length, table.textChanges, table.changedBlocks)
    ensures TableOk(view, meta, table.rows)
    ensures NoRoom(table, update) <==> Full(view, meta, table.rows, update)
  {
    hide Sound, RowsOf, BlockIs, CellsOf, Needed, TableOk;
    MirrorOk(table, view);
    forall k | 0 <= k < |view|
      ensures Kinds(view[k]) && BlockOf(view[k]) == table.chunks[k].Contents()
      ensures PendingOf(view[k]) == table.chunks[k].pending
    {
      Decoded(table.chunks[k].Contents(), table.chunks[k].pending);
    }
  }

  // ---------- Snapshots over shared storage ----------

  class Snapshots {
    const store: S.Store
    var metas: map<nat, Meta>
    ghost var rows: map<nat, seq<Row>>

    ghost predicate Stored()
      reads store
    {
      store.Valid() && S.AllReadable(store.tables, store.blocks, store.columns)
    }

    ghost function Views(): map<nat, S.Contents>
      requires Stored()
      reads store
    {
      store.Shown().views
    }

    ghost predicate Valid()
      reads this, store
    {
      && Stored() && metas.Keys == rows.Keys == Views().Keys
      && (forall t :: t in metas ==> TableOk(Views()[t], metas[t], rows[t]))
    }

    ghost function Now(): State
      reads this, store
    {
      State(rows, store.made)
    }

    constructor ()
      ensures Valid() && fresh(store) && Now() == State(map[], 0)
    {
      store := new S.Store();
      metas, rows := map[], map[];
    }

    /** The parts of a block, read through its handles. */
    method ReadBlock(t: nat, k: nat) returns (cells: Cells)
      requires Stored() && t in Views() && k < |Views()[t]|
      ensures cells == Views()[t][k]
    {
      hide S.Store.Valid;
      var handles, columns := store.blocks[store.tables[t][k]], store.columns;
      assert Views()[t] == store.View(t) && |handles| == |store.View(t)[k]|;
      cells := [];
      for c := 0 to |handles|
        invariant cells == Views()[t][k][..c]
      {
        assert Views()[t][k][c] == columns[handles[c]];
        cells := cells + [columns[handles[c]]];
      }
    }

    lemma Handles(t: nat)
      requires Stored() && t in Views()
      ensures t in store.tables && |store.tables[t]| == |Views()[t]| && store.View(t) == Views()[t]
    {
    }

    /** The row of a slot, or nothing beyond the length. */
    method Get(t: nat, slot: nat) returns (row: Option<Row>)
      requires Valid() && t in metas
      ensures row == if slot < |rows[t]| then Some(rows[t][slot]) else None
    {
      hide Sound, BlockIs;
      if slot >= metas[t].length {
        return None;
      }
      var k := slot / CHUNK_LENGTH;
      var cells := ReadBlock(t, k);
      var b := BlockOf(cells);
      RowAt(Views()[t], metas[t], rows[t], slot);
      row := Some(RowOf(b, |b.states|, slot % CHUNK_LENGTH));
    }

    /** The blocks of a table as objects of their own. */
    method Load(t: nat) returns (table: EntryTable)
      requires Valid() && t in metas
      ensures fresh(table) && fresh(table.chunks) && table.Valid() && table.rows == rows[t]
      ensures Meta(table.length, table.textChanges, table.changedBlocks) == metas[t] && Mirrors(table, Views()[t])
    {
      hide Sound, RowsOf, BlockIs, CellsOf, S.Store.Valid, S.Store.Shown, PendingReads, Mirrors, Kinds;
      ghost var view := Views()[t];
      var meta := metas[t];
      Handles(t);
      var blocks: seq<EntryChunk> := [];
      for k := 0 to |store.tables[t]|
        invariant |store.tables[t]| == |view| && |blocks| == k && fresh(blocks)
        invariant forall i, j :: 0 <= i < j < k ==> blocks[i] != blocks[j]
        invariant forall j :: 0 <= j < k ==>
                    && blocks[j].Valid() && blocks[j].Contents() == BlockOf(view[j])
                    && blocks[j].pending == PendingOf(view[j])
      {
        var cells := ReadBlock(t, k);
        var chunk := new EntryChunk.Of(BlockOf(cells), PendingOf(cells));
        blocks := blocks + [chunk];
      }
      table := new EntryTable.FromBlocks(blocks, meta.length, meta.textChanges, meta.changedBlocks, rows[t]);
      MirrorsView(table, view);
    }

    /** Operations on one table: it alone reads something else. */
    method Run(t: nat, run: seq<S.Operation>)
      requires Stored() && t in Views() && On(run, t)
      modifies store
      ensures Stored() && Views() == old(Views())[t := S.Own(old(Views())[t], run, t)] && store.made == old(store.made)
      ensures S.AllBlocksKept(old(store.tables), store.tables, run)
      ensures forall u :: u in old(store.tables) && u != t ==>
                u in store.tables && store.tables[u] == old(store.tables[u])
    {
      hide S.Own, S.Fold, S.Store.Valid, S.AllBlocksKept;
      assert forall u :: u != t ==> S.Untouched(run, u);
      Numbered();
      OnlyOne(store.Shown(), run, t);
      store.Perform(run);
    }

    lemma Numbered()
      requires Stored()
      ensures S.Numbered(store.Shown()) && store.Shown().made == store.made
    {
    }

    /** Write back what differs. In the blocks of a finished update, equal columns are shared. */
    method Save(t: nat, table: EntryTable, finished: set<nat>)
      requires Stored() && t in Views() && table.Valid()
      requires |Views()[t]| <= |table.chunks|
      requires forall k :: 0 <= k < |Views()[t]| ==> |Views()[t][k]| == WIDTH
      modifies store
      ensures Stored() && store.made == old(store.made)
      ensures Views().Keys == old(Views()).Keys && Mirrors(table, Views()[t]) && |Views()[t]| == |table.chunks|
      ensures forall u :: u in Views() && u != t ==> Views()[u] == old(Views())[u]
      ensures forall u :: u in old(store.tables) && u != t ==>
                u in store.tables && store.tables[u] == old(store.tables[u])
      ensures forall k :: 0 <= k < |old(Views()[t])| && k !in finished && old(Views()[t][k]) == Views()[t][k] ==>
                SameHandle(old(store.tables), store.tables, t, k)
    {
      hide Sound, RowsOf, BlockIs, CellsOf, S.Store.Valid, S.Store.Shown, S.Own, SaveRun, ShareRun, Kinds;
      hide S.AllBlocksKept;
      var before := ReadAll(t);
      var after := PartsOf(table);
      OwnSaved(t, before, after, |after|, finished);
      assert Halfway(before, after, |after|) == after;
      Handles(t);
      ghost var start := store.tables;
      Run(t, SaveRun(t, before, after, |after|, finished));
      ghost var middle := store.tables;
      ShareRunOn(t, finished, |after|);
      OwnShared(after, ShareRun(t, finished, |after|), t);
      Run(t, ShareRun(t, finished, |after|));
      forall k | 0 <= k < |before| && k !in finished && before[k] == after[k]
        ensures SameHandle(start, store.tables, t, k)
      {
        SavedAlone(t, before, after, |after|, finished, k);
        Kept(start, middle, SaveRun(t, before, after, |after|, finished), t, k);
        Kept(middle, store.tables, ShareRun(t, finished, |after|), t, k);
      }
    }

    method ReadAll(t: nat) returns (view: S.Contents)
      requires Stored() && t in Views()
      ensures view == Views()[t]
    {
      Handles(t);
      view := [];
      for k := 0 to |store.tables[t]|
        invariant view == Views()[t][..k]
      {
        var cells := ReadBlock(t, k);
        view := view + [cells];
      }
    }

    // ---------- Actions ----------

    /** An update of one snapshot. It fails exactly where an arena has no room, which is a panic; that changes
      * no snapshot here. The other snapshots keep all their blocks, and this one keeps those that the update
      * does not write. */
    method Update(t: nat, update: Update) returns (ok: bool)
      requires Valid() && t in metas && InRange(rows[t], update)
      modifies this, store
      ensures Valid()
      ensures ok <==> !old(Full(Views()[t], metas[t], rows[t], update))
      ensures ok ==> Now() == State(old(rows)[t := Updated(old(rows)[t], update)], old(store.made))
      ensures !ok ==> Now() == old(Now()) && Views() == old(Views()) && metas == old(metas)
      ensures !ok ==> store.tables == old(store.tables)
      ensures forall u :: u in old(store.tables) && u != t ==>
                u in store.tables && store.tables[u] == old(store.tables[u])
      ensures ok ==> KeptBlocks(old(Views()[t]), old(metas)[t], update, old(store.tables), store.tables, t)
    {
      hide Sound, RowsOf, BlockIs, CellsOf, CellsOk, Kinds, TableOk, Mirrors, Full, SameHandle, Unchanged;
      hide S.Store.Valid, S.Store.Shown, EntryTable.Valid;
      var table := Load(t);
      FullIsNoRoom(table, Views()[t], metas[t], update);
      ok := StepFrom(table, update, Views()[t], metas[t]);
      if ok {
        WriteBack(t, table, update);
      }
    }

    /** Put an updated table object in the place of the snapshot. */
    method WriteBack(t: nat, table: EntryTable, update: Update)
      requires Valid() && t in metas && InRange(rows[t], update)
      requires table.Valid() && table.rows == Updated(rows[t], update)
      requires Unchanged(table, Views()[t], metas[t], update)
      modifies this, store
      ensures Valid()
      ensures Now() == State(old(rows)[t := Updated(old(rows)[t], update)], old(store.made))
      ensures forall u :: u in old(store.tables) && u != t ==>
                u in store.tables && store.tables[u] == old(store.tables[u])
      ensures KeptBlocks(old(Views()[t]), old(metas)[t], update, old(store.tables), store.tables, t)
    {
      hide Sound, RowsOf, BlockIs, CellsOf, CellsOk, Kinds, TableOk, Mirrors, SameHandle, Unchanged, Rewrites;
      hide S.Store.Valid, S.Store.Shown, EntryTable.Valid;
      ghost var view := Views()[t];
      Grows(table, rows[t], metas[t], view);
      Save(t, table, if update.Finish? then metas[t].changedBlocks else {});
      Unwritten(table, view, Views()[t], metas[t], update);
      MirrorOk(table, Views()[t]);
      metas := metas[t := Meta(table.length, table.textChanges, table.changedBlocks)];
      rows := rows[t := table.rows];
    }

    method MakeNew()
      requires Valid()
      modifies this, store
      ensures Valid() && Now() == State(old(rows)[old(store.made) := []], old(store.made) + 1)
    {
      hide S.Store.Valid, S.Store.Shown, TableOk;
      Numbered();
      var t := store.made;
      store.MakeTable();
      Numbered();
      NoBlocks();
      metas := metas[t := Meta(0, {}, {})];
      rows := rows[t := []];
    }

    method MakeClone(t: nat)
      requires Valid() && t in metas
      modifies this, store
      ensures Valid() && Now() == State(old(rows)[old(store.made) := old(rows)[t]], old(store.made) + 1)
    {
      hide S.Store.Valid, S.Store.Shown, TableOk;
      Numbered();
      Handles(t);
      var s := store.made;
      store.MakeClone(t);
      Numbered();
      metas := metas[s := metas[t]];
      rows := rows[s := rows[t]];
    }

    method DropSnapshot(t: nat)
      requires Valid() && t in metas
      modifies this, store
      ensures Valid() && Now() == State(old(rows) - {t}, old(store.made))
    {
      hide S.Store.Valid, S.Store.Shown, TableOk;
      Handles(t);
      store.DropTable(t);
      metas := metas - {t};
      rows := rows - {t};
    }

    /** The action is an update of a snapshot whose arena has no room for it. */
    ghost predicate Refuses(action: Action)
      requires Valid() && Allowed(Now(), action)
      reads this, store
    {
      action.Change? && Full(Views()[action.t], metas[action.t], rows[action.t], action.update)
    }

    /** One action does to the rows of all snapshots what it would do if they shared nothing. */
    method Act(action: Action) returns (ok: bool)
      requires Valid() && Allowed(Now(), action)
      modifies this, store
      ensures Valid()
      ensures ok ==> Now() == Next(old(Now()), action)
      ensures !ok ==> Now() == old(Now()) && action.Change? && action.t in metas
      ensures ok <==> !old(Refuses(action))
      ensures !ok ==> Refuses(action)
    {
      hide TableOk, Full, Updated, S.Store.Valid, S.Store.Shown, SameHandle;
      ok := true;
      match action {
        case New => MakeNew();
        case Clone(t) => MakeClone(t);
        case Drop(t) => DropSnapshot(t);
        case Change(t, update) => ok := Update(t, update);
      }
    }

    /** Over any run of new tables, clones, drops and updates, every living snapshot reads what it would read
      * if nothing were shared. The run ends early only at an update whose arena has no room. */
    method Perform(actions: seq<Action>) returns (done: nat)
      requires Valid() && AllAllowed(Now(), actions)
      modifies this, store
      ensures Valid() && done <= |actions| && AllAllowed(old(Now()), actions[..done])
      ensures Now() == After(old(Now()), actions[..done])
      ensures done < |actions| ==> Allowed(Now(), actions[done]) && Refuses(actions[done])
    {
      hide Allowed, Next, Snapshots.Refuses, Snapshots.Valid, S.Store.Valid, S.Store.Shown, S.AllReadable;
      done := 0;
      while done < |actions|
        invariant done <= |actions| && Valid() && AllAllowed(Now(), actions[done..])
        invariant AllAllowed(old(Now()), actions[..done]) && Now() == After(old(Now()), actions[..done])
      {
        assert actions[done..][1..] == actions[done + 1..];
        var ok := Act(actions[done]);
        if !ok {
          break;
        }
        AfterMore(old(Now()), actions[..done], actions[done]);
        assert actions[..done + 1] == actions[..done] + [actions[done]];
        done := done + 1;
      }
    }
  }

  lemma {:induction false} AfterMore(s: State, actions: seq<Action>, action: Action)
    requires AllAllowed(s, actions) && Allowed(After(s, actions), action)
    ensures AllAllowed(s, actions + [action]) && After(s, actions + [action]) == Next(After(s, actions), action)
    decreases |actions|
  {
    if actions == [] {
      assert actions + [action] == [action];
      assert After(Next(s, action), [action][1..]) == Next(s, action);
    } else {
      assert (actions + [action])[1..] == actions[1..] + [action];
      AfterMore(Next(s, actions[0]), actions[1..], action);
    }
  }

  predicate Names(action: Action, u: nat) {
    !action.New? && !action.Clone? && action.t == u
  }

  ghost predicate Fresh(s: State) {
    forall t :: t in s.rows ==> t < s.made
  }

  /** A snapshot that no action of a run names has the same rows at the end. */
  lemma {:induction false} Isolated(s: State, actions: seq<Action>, u: nat)
    requires AllAllowed(s, actions) && Fresh(s) && u in s.rows
    requires forall i :: 0 <= i < |actions| ==> !Names(actions[i], u)
    ensures u in After(s, actions).rows && After(s, actions).rows[u] == s.rows[u]
    decreases |actions|
  {
    if actions != [] {
      assert !Names(actions[0], u);
      Isolated(Next(s, actions[0]), actions[1..], u);
    }
  }

  /** A clone keeps the rows of the moment it was made, whatever is then done to its original and to others. */
  lemma ClonePinned(s: State, t: nat, actions: seq<Action>)
    requires Fresh(s) && t in s.rows && AllAllowed(Next(s, Clone(t)), actions)
    requires forall i :: 0 <= i < |actions| ==> !Names(actions[i], s.made)
    ensures AllAllowed(s, [Clone(t)] + actions)
    ensures s.made in After(s, [Clone(t)] + actions).rows && After(s, [Clone(t)] + actions).rows[s.made] == s.rows[t]
  {
    assert ([Clone(t)] + actions)[1..] == actions;
    Isolated(Next(s, Clone(t)), actions, s.made);
  }

  lemma NoBlocks()
    ensures TableOk([], Meta(0, {}, {}), [])
  {
  }

  method StepFrom(table: EntryTable, update: Update, ghost view: S.Contents, ghost meta: Meta) returns (ok: bool)
    requires table.Valid() && InRange(table.rows, update) && Mirrors(table, view)
    requires meta == Meta(table.length, table.textChanges, table.changedBlocks)
    modifies table, table.chunks
    ensures ok ==> table.Valid() && table.rows == Updated(old(table.rows), update)
    ensures ok <==> !old(NoRoom(table, update))
    ensures Unchanged(table, view, meta, update)
  {
    hide Sound, RowsOf, BlockIs, CellsOf, EntryTable.Valid, NoRoom;
    ok := Step(table, update);
  }

  /** The blocks of the table object that an update does not write are still those of the view. */
  ghost predicate Unchanged(table: EntryTable, view: S.Contents, meta: Meta, update: Update)
    reads table, table.chunks
  {
    forall k :: 0 <= k < |view| && !Rewrites(meta.length, meta.changedBlocks, update, k) ==>
      && k < |table.chunks| && Shaped(table.chunks[k].Contents())
      && view[k] == CellsOf(table.chunks[k].Contents(), table.chunks[k].pending)
  }

  lemma Unwritten(table: EntryTable, before: S.Contents, after: S.Contents, meta: Meta, update: Update)
    requires Unchanged(table, before, meta, update) && Mirrors(table, after) && |before| <= |after|
    ensures forall k :: 0 <= k < |before| && !Rewrites(meta.length, meta.changedBlocks, update, k) ==>
              before[k] == after[k] && (update.Finish? ==> k !in meta.changedBlocks)
  {
    hide CellsOf;
  }

  /** An update makes no table shorter. */
  lemma Grows(table: EntryTable, before: seq<Row>, meta: Meta, view: S.Contents)
    requires table.Valid() && TableOk(view, meta, before) && |before| <= |table.rows|
    ensures |view| <= |table.chunks| && forall k :: 0 <= k < |view| ==> |view[k]| == WIDTH
  {
    hide Sound, RowsOf, BlockIs;
  }

  /** The table names the same block in place k. */
  ghost predicate SameHandle(before: map<nat, seq<nat>>, after: map<nat, seq<nat>>, t: nat, k: nat) {
    && t in before && t in after && k < |before[t]| && k < |after[t]|
    && after[t][k] == before[t][k]
  }

  /** The blocks that the update does not write stay the same blocks. */
  ghost predicate KeptBlocks(
    view: S.Contents, meta: Meta, update: Update, before: map<nat, seq<nat>>, after: map<nat, seq<nat>>, t: nat)
  {
    forall k :: 0 <= k < |view| && !Rewrites(meta.length, meta.changedBlocks, update, k) ==>
      SameHandle(before, after, t, k)
  }

  lemma Kept(before: map<nat, seq<nat>>, after: map<nat, seq<nat>>, run: seq<S.Operation>, t: nat, k: nat)
    requires S.AllBlocksKept(before, after, run) && S.BlockUntouched(run, t, k)
    requires t in before && k < |before[t]|
    ensures SameHandle(before, after, t, k)
  {
  }

  /** The parts of all blocks of a table object. */
  method PartsOf(table: EntryTable) returns (parts: S.Contents)
    requires table.Valid()
    ensures Mirrors(table, parts) && forall k :: 0 <= k < |parts| ==> |parts[k]| == WIDTH
  {
    hide Sound, RowsOf, BlockIs, CellsOf;
    parts := [];
    for k := 0 to |table.chunks|
      invariant |parts| == k
      invariant forall j :: 0 <= j < k ==>
                  && Shaped(table.chunks[j].Contents()) && |parts[j]| == WIDTH
                  && parts[j] == CellsOf(table.chunks[j].Contents(), table.chunks[j].pending)
    {
      ChunkShaped(table, k);
      parts := parts + [CellsOf(table.chunks[k].Contents(), table.chunks[k].pending)];
    }
  }

  lemma MirrorsView(table: EntryTable, view: S.Contents)
    requires |view| == |table.chunks|
    requires forall k :: 0 <= k < |view| ==>
               && Kinds(view[k]) && table.chunks[k].Contents() == BlockOf(view[k])
               && table.chunks[k].pending == PendingOf(view[k])
    ensures Mirrors(table, view)
  {
    hide CellsOf;
    forall k | 0 <= k < |view|
      ensures Shaped(table.chunks[k].Contents())
      ensures view[k] == CellsOf(table.chunks[k].Contents(), table.chunks[k].pending)
    {
      Encoded(view[k]);
    }
  }

  lemma ChunkShaped(table: EntryTable, k: nat)
    requires table.Valid() && k < |table.chunks|
    ensures Shaped(table.chunks[k].Contents())
    ensures |CellsOf(table.chunks[k].Contents(), table.chunks[k].pending)| == WIDTH
  {
    hide RowsOf, BlockIs;
  }

  lemma RowAt(view: S.Contents, meta: Meta, rows: seq<Row>, slot: nat)
    requires TableOk(view, meta, rows) && slot < meta.length
    ensures var k := slot / CHUNK_LENGTH;
            && k < |view| && CellsOk(view[k]) && slot % CHUNK_LENGTH < |BlockOf(view[k]).states|
            && RowOf(BlockOf(view[k]), |BlockOf(view[k]).states|, slot % CHUNK_LENGTH) == rows[slot]
  {
    hide Sound;
    var k := slot / CHUNK_LENGTH;
    var b := BlockOf(view[k]);
    assert BlockIs(rows, |view|, k, RowsOf(b, |b.states|));
    assert RowsOf(b, |b.states|)[slot % CHUNK_LENGTH] == rows[CHUNK_LENGTH * k + slot % CHUNK_LENGTH];
  }
}
