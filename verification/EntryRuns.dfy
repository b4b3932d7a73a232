/** Whole runs of updates against the table, and what a slot reads after one. */
module EntryRuns {
  import opened Common
  import opened TextArena
  import opened EntryBlock
  import opened EntryChunks
  import opened EntryTable
  import opened Interning

  datatype Update = Push(row: Row) | Set(slot: nat, row: Row) | Finish

  function Pushes(run: seq<Update>): nat {
    if run == [] then 0
    else Pushes(run[..|run| - 1]) + (if run[|run| - 1].Push? then 1 else 0)
  }

  /** Every set names a slot that the pushes before it made. */
  ghost predicate Legal(run: seq<Update>) {
    forall k :: 0 <= k < |run| && run[k].Set? ==> run[k].slot < Pushes(run[..k])
  }

  /** The last row that the run stores in the slot. */
  function LastStored(run: seq<Update>, slot: nat): Option<Row> {
    if run == [] then None
    else
      var before, last := run[..|run| - 1], run[|run| - 1];
      match last
      case Push(row) => if slot == Pushes(before) then Some(row) else LastStored(before, slot)
      case Set(at, row) => if slot == at then Some(row) else LastStored(before, slot)
      case Finish => LastStored(before, slot)
  }

  lemma LegalPrefix(run: seq<Update>, k: nat)
    requires Legal(run) && k <= |run|
    ensures Legal(run[..k])
  {
    forall i | 0 <= i < k && run[i].Set? ensures run[i].slot < Pushes(run[..k][..i]) {
      assert run[..k][..i] == run[..i];
    }
  }

  /** The table holds what the run stored last in each slot, and nothing else. */
  ghost predicate Holds(rows: seq<Row>, run: seq<Update>) {
    && |rows| == Pushes(run)
    && (forall slot :: 0 <= slot < |rows| ==> LastStored(run, slot) == Some(rows[slot]))
  }

  lemma HoldsPush(rows: seq<Row>, run: seq<Update>, row: Row)
    requires Holds(rows, run)
    ensures Holds(rows + [row], run + [Push(row)])
  {
    assert (run + [Push(row)])[..|run|] == run;
  }

  lemma HoldsSet(rows: seq<Row>, run: seq<Update>, at: nat, row: Row)
    requires Holds(rows, run) && at < |rows|
    ensures Holds(rows[at := row], run + [Set(at, row)])
  {
    assert (run + [Set(at, row)])[..|run|] == run;
  }

  lemma HoldsFinish(rows: seq<Row>, run: seq<Update>)
    requires Holds(rows, run)
    ensures Holds(rows, run + [Finish])
  {
    assert (run + [Finish])[..|run|] == run;
  }

  lemma {:induction false} BeyondPushes(run: seq<Update>)
    requires Legal(run)
    ensures forall slot :: slot >= Pushes(run) ==> LastStored(run, slot) == None
  {
    if run != [] {
      LegalPrefix(run, |run| - 1);
      BeyondPushes(run[..|run| - 1]);
    }
  }

  /** The arena of the very block that the update writes has no room for what its row needs. */
  ghost predicate NoRoom(table: EntryTable, update: Update)
    requires table.Valid() && (update.Set? ==> update.slot < |table.rows|)
    reads table, table.chunks
  {
    match update
    case Push(row) => table.PushArena(row) > U32_MAX
    case Set(slot, row) =>
      Placed(table, slot);
      table.ArenaThen(slot, row) > U32_MAX
    case Finish => false
  }

  lemma Placed(table: EntryTable, slot: nat)
    requires table.Valid() && slot < |table.rows|
    ensures slot < table.length && slot / CHUNK_LENGTH < |table.chunks|
  {
    hide Sound, RowsOf, EntryChunk.Valid, BlockIs;
  }

  /** The blocks that an update may change. */
  predicate Rewrites(length: nat, changed: set<nat>, update: Update, k: nat) {
    match update
    case Push(_) => k == length / CHUNK_LENGTH
    case Set(slot, _) => k == slot / CHUNK_LENGTH
    case Finish => k in changed
  }

  /** One update of a table. It fails exactly where the arena has no room. */
  method Step(table: EntryTable, update: Update) returns (ok: bool)
    requires table.Valid() && (update.Set? ==> update.slot < |table.rows|)
    modifies table, table.chunks
    ensures ok ==> table.Valid()
    ensures ok ==> table.rows == match update
                                 case Push(row) => old(table.rows) + [row]
                                 case Set(slot, row) => old(table.rows)[slot := row]
                                 case Finish => old(table.rows)
    ensures ok <==> !old(NoRoom(table, update))
    ensures |old(table.chunks)| <= |table.chunks| && table.chunks[..|old(table.chunks)|] == old(table.chunks)
    ensures forall k ::
              0 <= k < |old(table.chunks)|
              && !Rewrites(old(table.length), old(table.changedBlocks), update, k) ==>
              && table.chunks[k].pending == old(table.chunks[k].pending)
              && table.chunks[k].Contents() == old(table.chunks[k].Contents())
  {
    hide Sound, RowsOf, EntryChunk.Valid, EntryChunk.Rows, BlockIs, Live, Dense, Needed, EntryTable.Marks;
    match update
    case Push(row) => ok := table.Push(row);
    case Set(slot, row) =>
      Placed(table, slot);
      ok := table.Set(slot, row);
    case Finish =>
      table.FinishUpdate();
      ok := true;
  }

  /** A clone is refused what its original would be refused. */
  lemma SameRoom(table: EntryTable, copy: EntryTable, update: Update)
    requires table.Valid() && copy.Valid() && copy.rows == table.rows && |copy.chunks| == |table.chunks|
    requires forall k :: 0 <= k < |table.chunks| ==>
               && copy.chunks[k].Contents() == table.chunks[k].Contents()
               && copy.chunks[k].pending == table.chunks[k].pending
    requires update.Set? ==> update.slot < |table.rows|
    ensures NoRoom(copy, update) <==> NoRoom(table, update)
  {
    hide Sound, RowsOf, EntryChunk.Valid, BlockIs, EntryTable.Marks, Needed;
    assert copy.length == table.length;
    assert forall k :: 0 <= k < |table.chunks| ==> copy.chunks[k].Contents().text == table.chunks[k].Contents().text;
  }

  lemma ReadsBack(table: EntryTable, run: seq<Update>)
    requires Legal(run) && table.Valid() && Holds(table.rows, run)
    ensures forall slot: nat :: table.Get(slot) == LastStored(run, slot)
  {
    hide Sound, RowsOf, EntryChunk.Valid, BlockIs;
    BeyondPushes(run);
  }

  lemma HoldsMore(before: seq<Row>, after: seq<Row>, run: seq<Update>, k: nat)
    requires Legal(run) && k < |run| && Holds(before, run[..k])
    requires run[k].Set? ==> run[k].slot < |before|
    requires after == match run[k]
                      case Push(row) => before + [row]
                      case Set(slot, row) => before[slot := row]
                      case Finish => before
    ensures Holds(after, run[..k + 1])
  {
    assert run[..k + 1] == run[..k] + [run[k]];
    match run[k]
    case Push(row) => HoldsPush(before, run[..k], row);
    case Set(slot, row) => HoldsSet(before, run[..k], slot, row);
    case Finish => HoldsFinish(before, run[..k]);
  }

  /** Any run of push, set and finish_update on a new table: each update works on a clone of the table
    * before it, so the table that is returned is the one after the updates that were done. Every slot
    * then reads exactly the last row that those updates stored there. The run ends early only at an
    * update whose own block has no room in its arena. */
  method Perform(run: seq<Update>) returns (table: EntryTable, done: nat)
    requires Legal(run)
    ensures done <= |run| && table.Valid() && Holds(table.rows, run[..done])
    ensures forall slot: nat :: table.Get(slot) == LastStored(run[..done], slot)
    ensures done < |run| ==> (run[done].Set? ==> run[done].slot < |table.rows|) && NoRoom(table, run[done])
  {
    hide Sound, RowsOf, EntryChunk.Valid, EntryChunk.Rows, BlockIs, Needed, EntryTable.Valid, Holds, NoRoom;
    table := new EntryTable();
    NothingHeld(table);
    done := 0;
    while done < |run|
      invariant done <= |run| && table.Valid() && Holds(table.rows, run[..done])
    {
      SetsWithin(table.rows, run, done);
      var next := table.Clone();
      SameRoom(table, next, run[done]);
      var ok := Step(next, run[done]);
      if !ok {
        break;
      }
      HoldsMore(table.rows, next.rows, run, done);
      table, done := next, done + 1;
    }
    LegalPrefix(run, done);
    ReadsBack(table, run[..done]);
  }

  lemma NothingHeld(table: EntryTable)
    requires table.Valid() && table.rows == []
    ensures Holds(table.rows, [])
  {
  }

  lemma SetsWithin(rows: seq<Row>, run: seq<Update>, k: nat)
    requires Legal(run) && k < |run| && Holds(rows, run[..k])
    ensures run[k].Set? ==> run[k].slot < |rows|
  {
  }
}
