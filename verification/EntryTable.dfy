/** The table of rows: column blocks of 4096 rows, written in place, and the end of an update that
  * reclaims text (core/src/entry_table.rs). */
module EntryTable {
  import opened Common
  import opened TextArena
  import opened EntryBlock
  import opened EntryChunks
  import opened Interning

  const CHUNK_LENGTH := 4096

  /** The arena has no more dead bytes than live ones. */
  ghost predicate Dense(chunk: EntryChunk)
    reads chunk
  {
    |chunk.text| <= 2 * Live(chunk.Contents())
  }

  /** What the reclamation does to a block: with changed text it becomes dense, and without it stays
    * as dense as it was. */
  twostate predicate Reclaimed(chunk: EntryChunk, changed: bool)
    reads chunk
  {
    (Dense(chunk) <==> changed || old(Dense(chunk))) && |chunk.text| <= |old(chunk.text)|
  }

  twostate lemma MadeDense(chunk: EntryChunk)
    requires Dense(chunk) && |chunk.text| <= |old(chunk.text)|
    ensures Reclaimed(chunk, true)
  {
  }

  twostate lemma Untouched(chunk: EntryChunk)
    requires chunk.Contents() == old(chunk.Contents())
    ensures Reclaimed(chunk, false)
  {
  }

  /** Block k of count blocks holds exactly the rows from position CHUNK_LENGTH * k on: 4096 of them,
    * and in the last block the rest. */
  ghost predicate BlockIs(rows: seq<Row>, count: nat, k: nat, block: seq<Row>) {
    && |block| == (if k + 1 < count then CHUNK_LENGTH else |rows| - CHUNK_LENGTH * k)
    && CHUNK_LENGTH * k + |block| <= |rows|
    && (forall j :: 0 <= j < |block| ==> block[j] == rows[CHUNK_LENGTH * k + j])
  }

  /** So many blocks have room for the rows; only the last may have room to spare. */
  predicate Room(count: nat, length: nat) {
    length <= CHUNK_LENGTH * count && (count > 0 ==> CHUNK_LENGTH * (count - 1) <= length)
  }

  class EntryTable {
    var chunks: seq<EntryChunk>
    var length: nat
    var textChanges: set<nat>
    var changedBlocks: set<nat>
    ghost var rows: seq<Row>

    /** The blocks are distinct objects that hold the rows in order. */
    ghost predicate Stores()
      reads `chunks, `length, `rows, chunks
    {
      && (forall j, k :: 0 <= j < k < |chunks| ==> chunks[j] != chunks[k])
      && |rows| == length && Room(|chunks|, length)
      && (forall k :: 0 <= k < |chunks| ==> chunks[k].Valid() && BlockIs(rows, |chunks|, k, chunks[k].Rows()))
    }

    /** Only a block that is being changed has a dictionary, and dirty marks name blocks. */
    ghost predicate Marks()
      reads this, chunks
    {
      && textChanges <= changedBlocks
      && (forall k :: k in changedBlocks ==> k < |chunks|)
      && (forall k :: 0 <= k < |chunks| && chunks[k].pending.Some? ==> k in changedBlocks)
    }

    /** No block is empty: there are as many as the rows need. */
    ghost predicate Valid()
      reads this, chunks
    {
      Stores() && Marks() && |chunks| == (length + CHUNK_LENGTH - 1) / CHUNK_LENGTH
    }

    constructor ()
      ensures Valid() && rows == [] && length == 0
    {
      chunks, length, textChanges, changedBlocks, rows := [], 0, {}, {}, [];
    }

    /** Where a slot of the table is kept. */
    lemma Located(slot: nat)
      requires Stores() && slot < length
      ensures slot / CHUNK_LENGTH < |chunks| && chunks[slot / CHUNK_LENGTH].Valid()
      ensures slot % CHUNK_LENGTH < chunks[slot / CHUNK_LENGTH].Len()
      ensures chunks[slot / CHUNK_LENGTH].Rows()[slot % CHUNK_LENGTH] == rows[slot]
    {
      hide Sound, RowsOf;
      var k := slot / CHUNK_LENGTH;
      assert BlockIs(rows, |chunks|, k, chunks[k].Rows());
    }

    function Get(slot: nat): (row: Option<Row>)
      requires Valid()
      reads this, chunks
      ensures row == if slot < length then Some(rows[slot]) else None
    {
      if slot < length then
        Located(slot);
        Some(chunks[slot / CHUNK_LENGTH].At(slot % CHUNK_LENGTH))
      else None
    }

    function Last(): (row: Option<Row>)
      requires Valid()
      reads this, chunks
      ensures row == if rows == [] then None else Some(rows[|rows| - 1])
    {
      if length == 0 then None else Get(length - 1)
    }

    /** iter: every slot of every block, in order. */
    method Collect() returns (all: seq<Row>)
      requires Valid()
      ensures all == rows
    {
      hide Sound, RowsOf;
      all := [];
      for k := 0 to |chunks|
        invariant |all| == (if k == |chunks| then length else CHUNK_LENGTH * k) && all == rows[..|all|]
      {
        var chunk := chunks[k];
        assert BlockIs(rows, |chunks|, k, chunk.Rows());
        for j := 0 to chunk.Len()
          invariant |all| == CHUNK_LENGTH * k + j && all == rows[..|all|]
        {
          assert chunk.Rows()[j] == rows[CHUNK_LENGTH * k + j];
          all := all + [chunk.At(j)];
        }
      }
    }

    /** The bytes in the block's arena once the row is written into the slot. */
    ghost function ArenaThen(slot: nat, row: Row): nat
      requires Stores() && slot <= length && slot / CHUNK_LENGTH < |chunks|
      reads `chunks, `length, `rows, chunks
    {
      var chunk := chunks[slot / CHUNK_LENGTH];
      SlotReached(slot);
      |chunk.text| + Needed(chunk.Contents(), chunk.pending, slot % CHUNK_LENGTH, row)
    }

    lemma SlotReached(slot: nat)
      requires Stores() && slot <= length && slot / CHUNK_LENGTH < |chunks|
      ensures var chunk := chunks[slot / CHUNK_LENGTH];
              && chunk.Valid() && slot % CHUNK_LENGTH <= chunk.Len() && slot % CHUNK_LENGTH <= |chunk.texts[PARENT]|
              && TextsSound(chunk.text, chunk.texts) && PathsSound(chunk.text, chunk.paths)
    {
      hide RowsOf;
      SlotInBlock(rows, |chunks|, slot, chunks[slot / CHUNK_LENGTH].Rows());
    }

    /** Write one row into its block: an existing row, or the next one of the last block. It fails exactly when
      * the block does, for want of room in its arena. */
    method SetRow(slot: nat, row: Row) returns (ok: bool)
      requires Stores() && slot <= length && slot / CHUNK_LENGTH < |chunks|
      modifies `length, `rows, chunks[slot / CHUNK_LENGTH]
      ensures ok ==> Stores() && rows == Stored(old(rows), slot, row)
      ensures forall k :: 0 <= k < |chunks| && k != slot / CHUNK_LENGTH ==>
                chunks[k].pending == old(chunks[k].pending) && chunks[k].Contents() == old(chunks[k].Contents())
      ensures ok <==> old(ArenaThen(slot, row)) <= U32_MAX
      ensures ok ==> |chunks[slot / CHUNK_LENGTH].text| == old(ArenaThen(slot, row))
    {
      hide Sound, RowsOf, Grown, Needed, EntryChunk.Valid, BlockIs;
      SlotReached(slot);
      var block := slot / CHUNK_LENGTH;
      var chunk := chunks[block];
      ghost var before := chunk.Rows();
      SlotInBlock(rows, |chunks|, slot, before);
      ok := chunk.Set(slot % CHUNK_LENGTH, row);
      if !ok {
        return;
      }
      rows := Stored(rows, slot, row);
      if slot == length {
        length := length + 1;
      }
      forall k | 0 <= k < |chunks| ensures chunks[k].Valid() && BlockIs(rows, |chunks|, k, chunks[k].Rows()) {
        if k == block {
          OwnBlockStored(old(rows), |chunks|, before, slot, row);
        } else {
          OtherBlockStored(old(rows), |chunks|, k, chunks[k].Rows(), slot, row);
        }
      }
    }

    /** A failure is the panic of append: the arena of this very block has no room for what the row needs. */
    method Set(slot: nat, row: Row) returns (ok: bool)
      requires Valid() && slot < length
      modifies this, chunks[slot / CHUNK_LENGTH]
      ensures chunks == old(chunks)
      ensures ok ==> Valid() && rows == old(rows)[slot := row]
      ensures ok ==> changedBlocks == old(changedBlocks) + {slot / CHUNK_LENGTH}
      ensures ok ==>
                textChanges == if |chunks[slot / CHUNK_LENGTH].text| != old(|chunks[slot / CHUNK_LENGTH].text|)
                               then old(textChanges) + {slot / CHUNK_LENGTH} else old(textChanges)
      ensures ok <==> old(ArenaThen(slot, row)) <= U32_MAX
      ensures ok ==> |chunks[slot / CHUNK_LENGTH].text| == old(ArenaThen(slot, row))
      ensures forall k :: 0 <= k < |chunks| && k != slot / CHUNK_LENGTH ==>
                chunks[k].pending == old(chunks[k].pending) && chunks[k].Contents() == old(chunks[k].Contents())
    {
      hide Sound, RowsOf, Needed, EntryChunk.Valid, BlockIs, EntryTable.ArenaThen;
      var block := slot / CHUNK_LENGTH;
      Located(slot);
      var previous := |chunks[block].text|;
      ok := SetRow(slot, row);
      if !ok {
        return;
      }
      assert length == old(length);
      hide EntryTable.Stores;
      changedBlocks := changedBlocks + {block};
      if |chunks[block].text| != previous {
        textChanges := textChanges + {block};
      }
    }

    method AddBlock()
      requires Stores() && length == CHUNK_LENGTH * |chunks|
      modifies `chunks
      ensures Stores() && |chunks| == |old(chunks)| + 1 && chunks[..|old(chunks)|] == old(chunks)
      ensures fresh(chunks[|old(chunks)|]) && chunks[|old(chunks)|].Contents() == EMPTY_BLOCK
      ensures chunks[|old(chunks)|].pending.None?
    {
      hide Sound, RowsOf, EntryChunk.Valid;
      var chunk := new EntryChunk();
      chunks := chunks + [chunk];
    }

    method MarkBoth(block: nat)
      requires textChanges <= changedBlocks && block < |chunks|
      requires forall k :: k in changedBlocks ==> k < |chunks|
      requires forall k :: 0 <= k < |chunks| && k != block && chunks[k].pending.Some? ==> k in changedBlocks
      modifies `textChanges, `changedBlocks
      ensures Marks()
      ensures changedBlocks == old(changedBlocks) + {block} && textChanges == old(textChanges) + {block}
    {
      textChanges := textChanges + {block};
      changedBlocks := changedBlocks + {block};
    }

    /** The bytes in the arena of the last block, or of a new one, once the row is pushed. */
    ghost function PushArena(row: Row): nat
      requires Valid()
      reads this, chunks
    {
      if length % CHUNK_LENGTH == 0 then Needed(EMPTY_BLOCK, None, 0, row) else ArenaThen(length, row)
    }

    method Push(row: Row) returns (ok: bool)
      requires Valid()
      modifies this, if length % CHUNK_LENGTH == 0 then {} else {chunks[|chunks| - 1]}
      ensures |old(chunks)| <= |chunks| && chunks[..|old(chunks)|] == old(chunks)
      ensures forall k :: |old(chunks)| <= k < |chunks| ==> fresh(chunks[k])
      ensures ok ==> Valid() && rows == old(rows) + [row]
      ensures ok ==> changedBlocks == old(changedBlocks) + {old(length) / CHUNK_LENGTH}
      ensures ok ==> textChanges == old(textChanges) + {old(length) / CHUNK_LENGTH}
      ensures ok <==> old(PushArena(row)) <= U32_MAX
      ensures ok ==> |chunks[old(length) / CHUNK_LENGTH].text| == old(PushArena(row))
      ensures forall k :: 0 <= k < |old(chunks)| && k != old(length) / CHUNK_LENGTH ==>
                chunks[k].pending == old(chunks[k].pending) && chunks[k].Contents() == old(chunks[k].Contents())
    {
      hide Sound, RowsOf, Needed, EntryChunk.Valid, BlockIs;
      if length % CHUNK_LENGTH == 0 {
        AddBlock();
      }
      var block := length / CHUNK_LENGTH;
      ok := SetRow(length, row);
      if !ok {
        return;
      }
      MarkBoth(block);
    }

    /** The first half of finish_update for one block. */
    method ReclaimBlock(index: nat)
      requires Stores() && index < |chunks|
      modifies chunks[index]
      ensures Stores() && Dense(chunks[index]) && |chunks[index].text| <= |old(chunks[index].text)|
      ensures chunks[index].pending.Some? ==> old(chunks[index].pending).Some?
    {
      hide Sound, RowsOf, EntryChunk.Valid, BlockIs, EntryChunk.Rows, Live;
      chunks[index].Reclaim();
    }

    /** The second half of finish_update for one block. */
    method CompactBlock(index: nat)
      requires Stores() && index < |chunks|
      modifies chunks[index]
      ensures Stores() && chunks[index].pending.None?
      ensures chunks[index].Contents() == old(chunks[index].Contents())
    {
      hide Sound, RowsOf, BlockIs;
      ghost var chunk := chunks[index];
      ghost var before := chunk.Rows();
      chunks[index].CompactIntegers();
      assert chunk.Rows() == before;
    }

    /** finish_update: the rows stay, the dictionaries go, and a block is dense afterwards exactly when
      * its text had grown in the update or it was dense before. */
    method FinishUpdate()
      requires Valid()
      modifies this, chunks
      ensures Valid() && chunks == old(chunks) && rows == old(rows)
      ensures textChanges == {} && changedBlocks == {}
      ensures forall k :: 0 <= k < |chunks| ==> chunks[k].pending.None?
      ensures forall k :: 0 <= k < |chunks| ==>
                Reclaimed(chunks[k], k in old(textChanges))
      ensures forall k :: 0 <= k < |chunks| && k !in old(changedBlocks) ==>
                chunks[k].pending == old(chunks[k].pending) && chunks[k].Contents() == old(chunks[k].Contents())
    {
      hide Sound, RowsOf, EntryChunk.Valid, BlockIs, EntryChunk.Rows, Live, EntryTable.Stores;
      if changedBlocks == {} {
        return;
      }
      ReclaimBlocks();
      textChanges := {};
      CompactBlocks();
      changedBlocks := {};
    }

    method ReclaimBlocks()
      requires Valid()
      modifies chunks
      ensures Valid()
      ensures forall k :: 0 <= k < |chunks| ==> Reclaimed(chunks[k], k in textChanges)
      ensures forall k :: 0 <= k < |chunks| && k !in textChanges ==>
                chunks[k].pending == old(chunks[k].pending) && chunks[k].Contents() == old(chunks[k].Contents())
    {
      hide Sound, RowsOf, EntryChunk.Valid, BlockIs, EntryChunk.Rows, Live, Dense, Reclaimed;
      for index := 0 to |chunks|
        invariant Stores() && Marks()
        invariant forall k :: 0 <= k < index ==> Reclaimed(chunks[k], k in textChanges)
        invariant forall k :: 0 <= k < |chunks| && (k >= index || k !in textChanges) ==>
                    chunks[k].pending == old(chunks[k].pending) && chunks[k].Contents() == old(chunks[k].Contents())
      {
        if index in textChanges {
          ReclaimBlock(index);
          MadeDense(chunks[index]);
        } else {
          Untouched(chunks[index]);
        }
      }
    }

    method CompactBlocks()
      requires Valid() && textChanges == {}
      modifies chunks
      ensures Valid()
      ensures forall k :: 0 <= k < |chunks| ==> chunks[k].pending.None?
      ensures forall k :: 0 <= k < |chunks| ==> chunks[k].Contents() == old(chunks[k].Contents())
    {
      hide Sound, RowsOf, EntryChunk.Valid, BlockIs, EntryChunk.Rows, Live;
      for index := 0 to |chunks|
        invariant Stores() && Marks()
        invariant forall k :: 0 <= k < index ==> chunks[k].pending.None?
        invariant forall k :: 0 <= k < |chunks| ==> chunks[k].Contents() == old(chunks[k].Contents())
      {
        if index in changedBlocks {
          CompactBlock(index);
        }
      }
    }

    /** A table over blocks whose rows are given. */
    constructor FromBlocks(
      blocks: seq<EntryChunk>, total: nat, marks: set<nat>, changed: set<nat>, ghost all: seq<Row>)
      requires forall j, k :: 0 <= j < k < |blocks| ==> blocks[j] != blocks[k]
      requires |all| == total && |blocks| == (total + CHUNK_LENGTH - 1) / CHUNK_LENGTH
      requires marks <= changed && forall k :: k in changed ==> k < |blocks|
      requires forall k :: 0 <= k < |blocks| ==> blocks[k].Valid() && (blocks[k].pending.Some? ==> k in changed)
      requires forall k :: 0 <= k < |blocks| ==> BlockIs(all, |blocks|, k, blocks[k].Rows())
      ensures Valid() && chunks == blocks && rows == all && textChanges == marks && changedBlocks == changed
    {
      chunks, length, textChanges, changedBlocks, rows := blocks, total, marks, changed, all;
    }

    /** Cloning a table gives another one with the same rows, which can be changed on its own. */
    method Clone() returns (copy: EntryTable)
      requires Valid()
      ensures fresh(copy) && fresh(copy.chunks)
      ensures copy.Valid() && copy.rows == rows && |copy.chunks| == |chunks|
      ensures copy.textChanges == textChanges && copy.changedBlocks == changedBlocks
      ensures forall k :: 0 <= k < |chunks| ==>
                copy.chunks[k].Contents() == chunks[k].Contents() && copy.chunks[k].pending == chunks[k].pending
    {
      hide Sound, RowsOf, EntryChunk.Valid, BlockIs;
      var blocks := CopyBlocks(chunks);
      copy := new EntryTable.FromBlocks(blocks, length, textChanges, changedBlocks, rows);
    }
  }

  lemma SlotInBlock(rows: seq<Row>, count: nat, slot: nat, block: seq<Row>)
    requires slot <= |rows| && slot / CHUNK_LENGTH < count && Room(count, |rows|)
    requires BlockIs(rows, count, slot / CHUNK_LENGTH, block)
    ensures slot % CHUNK_LENGTH <= |block|
    ensures slot == |rows| <==> slot % CHUNK_LENGTH == |block|
    ensures slot == |rows| ==> slot / CHUNK_LENGTH == count - 1 && Room(count, |rows| + 1)
  {
  }

  lemma OwnBlockStored(rows: seq<Row>, count: nat, block: seq<Row>, slot: nat, row: Row)
    requires slot <= |rows| && slot / CHUNK_LENGTH < count && Room(count, |rows|)
    requires BlockIs(rows, count, slot / CHUNK_LENGTH, block) && slot % CHUNK_LENGTH <= |block|
    ensures BlockIs(Stored(rows, slot, row), count, slot / CHUNK_LENGTH, Stored(block, slot % CHUNK_LENGTH, row))
  {
  }

  lemma OtherBlockStored(rows: seq<Row>, count: nat, k: nat, block: seq<Row>, slot: nat, row: Row)
    requires slot <= |rows| && slot / CHUNK_LENGTH < count && Room(count, |rows|)
    requires k < count && k != slot / CHUNK_LENGTH && BlockIs(rows, count, k, block)
    ensures BlockIs(Stored(rows, slot, row), count, k, block)
  {
  }

  /*** Tables from blocks ***/

  method CopyBlocks(blocks: seq<EntryChunk>) returns (copies: seq<EntryChunk>)
    requires forall k :: 0 <= k < |blocks| ==> blocks[k].Valid()
    ensures |copies| == |blocks| && fresh(copies)
    ensures forall j, k :: 0 <= j < k < |copies| ==> copies[j] != copies[k]
    ensures forall k :: 0 <= k < |blocks| ==>
              && copies[k].Valid() && copies[k].Contents() == blocks[k].Contents()
              && copies[k].pending == blocks[k].pending && copies[k].Rows() == blocks[k].Rows()
  {
    hide Sound, RowsOf, EntryChunk.Valid, EntryChunk.Rows;
    copies := [];
    for k := 0 to |blocks|
      invariant |copies| == k && fresh(copies)
      invariant forall i, j :: 0 <= i < j < k ==> copies[i] != copies[j]
      invariant forall i :: 0 <= i < k ==>
                  && copies[i].Valid() && copies[i].Contents() == blocks[i].Contents()
                  && copies[i].pending == blocks[i].pending && copies[i].Rows() == blocks[i].Rows()
    {
      var copy := new EntryChunk.Copy(blocks[k]);
      copies := copies + [copy];
    }
  }

  ghost predicate Published(blocks: seq<EntryChunk>)
    reads blocks
  {
    forall k :: 0 <= k < |blocks| ==> blocks[k].Valid() && blocks[k].pending.None?
  }

  /** All the rows of the blocks, in order. */
  ghost function AllRows(blocks: seq<EntryChunk>): seq<Row>
    requires Published(blocks)
    reads blocks
  {
    if blocks == [] then []
    else AllRows(blocks[..|blocks| - 1]) + blocks[|blocks| - 1].Rows()
  }

  lemma BlockKept(rows: seq<Row>, more: seq<Row>, count: nat, k: nat, block: seq<Row>)
    requires |rows| == CHUNK_LENGTH * count && k < count && BlockIs(rows, count, k, block)
    ensures BlockIs(rows + more, count + 1, k, block)
  {
  }

  lemma BlockAdded(rows: seq<Row>, count: nat, block: seq<Row>)
    requires |rows| == CHUNK_LENGTH * count
    ensures BlockIs(rows + block, count + 1, count, block)
  {
  }

  lemma {:induction false} AllRowsBlock(blocks: seq<EntryChunk>, k: nat)
    requires Published(blocks) && k < |blocks|
    requires forall i :: 0 <= i < |blocks| - 1 ==> blocks[i].Len() == CHUNK_LENGTH
    ensures |AllRows(blocks)| == CHUNK_LENGTH * (|blocks| - 1) + blocks[|blocks| - 1].Len()
    ensures BlockIs(AllRows(blocks), |blocks|, k, blocks[k].Rows())
  {
    hide Sound, RowsOf, EntryChunk.Valid, BlockIs;
    var front, last := blocks[..|blocks| - 1], blocks[|blocks| - 1];
    if front != [] {
      AllRowsBlock(front, if k < |front| then k else 0);
    }
    if k < |front| {
      BlockKept(AllRows(front), last.Rows(), |front|, k, blocks[k].Rows());
    } else {
      BlockAdded(AllRows(front), |front|, last.Rows());
    }
  }

  /** Every block but the last is full, and none is empty or too long. */
  ghost predicate Acceptable(blocks: seq<EntryChunk>)
    reads blocks
  {
    forall k :: 0 <= k < |blocks| ==>
      0 < blocks[k].Len() <= CHUNK_LENGTH && (k + 1 < |blocks| ==> blocks[k].Len() == CHUNK_LENGTH)
  }

  method CountRows(blocks: seq<EntryChunk>) returns (length: nat)
    requires Published(blocks)
    ensures length == |AllRows(blocks)|
  {
    hide Sound, RowsOf, EntryChunk.Valid;
    length := 0;
    for k := 0 to |blocks|
      invariant Published(blocks[..k]) && length == |AllRows(blocks[..k])|
    {
      assert blocks[..k + 1][..k] == blocks[..k];
      length := length + blocks[k].Len();
    }
    assert blocks[..|blocks|] == blocks;
  }

  method CheckSizes(blocks: seq<EntryChunk>) returns (ok: bool)
    ensures ok <==> Acceptable(blocks)
  {
    for k := 0 to |blocks|
      invariant forall i :: 0 <= i < k ==>
                  0 < blocks[i].Len() <= CHUNK_LENGTH && (i + 1 < |blocks| ==> blocks[i].Len() == CHUNK_LENGTH)
    {
      var size := blocks[k].Len();
      if size == 0 || size > CHUNK_LENGTH || (k + 1 < |blocks| && size != CHUNK_LENGTH) {
        return false;
      }
    }
    ok := true;
  }

  lemma AllRowsBlocks(blocks: seq<EntryChunk>)
    requires Published(blocks) && Acceptable(blocks)
    ensures |blocks| == (|AllRows(blocks)| + CHUNK_LENGTH - 1) / CHUNK_LENGTH
    ensures forall k :: 0 <= k < |blocks| ==> BlockIs(AllRows(blocks), |blocks|, k, blocks[k].Rows())
  {
    hide Sound, RowsOf, EntryChunk.Valid, BlockIs;
    if blocks != [] {
      AllRowsBlock(blocks, 0);
      forall k | 0 <= k < |blocks| ensures BlockIs(AllRows(blocks), |blocks|, k, blocks[k].Rows()) {
        AllRowsBlock(blocks, k);
      }
    }
  }

  /** from_chunks: a table when every block but the last is full and none is empty, and its rows are
    * those of the blocks. The same block may be given twice: the table holds clones, as it does in
    * effect once make_mut has told shared blocks apart. */
  method FromChunks(blocks: seq<EntryChunk>) returns (table: Option<EntryTable>)
    requires Published(blocks)
    ensures table.Some? <==> |AllRows(blocks)| <= U32_MAX && Acceptable(blocks)
    ensures table.Some? ==>
              && fresh(table.value) && fresh(table.value.chunks) && table.value.Valid()
              && |table.value.chunks| == |blocks| && table.value.rows == AllRows(blocks)
              && forall k :: 0 <= k < |blocks| ==> table.value.chunks[k].Contents() == blocks[k].Contents()
  {
    hide Sound, RowsOf, EntryChunk.Valid, BlockIs, Acceptable, EntryTable.Valid;
    var length := CountRows(blocks);
    var sizes := CheckSizes(blocks);
    if length > U32_MAX || !sizes {
      return None;
    }
    AllRowsBlocks(blocks);
    var copies := CopyBlocks(blocks);
    var t := new EntryTable.FromBlocks(copies, length, {}, {}, AllRows(blocks));
    table := Some(t);
  }

  /*** A block whose arena is dead and that the end of an update leaves alone ***/

  function LongText(): (text: Bytes)
    ensures |text| == 100
  {
    seq(100, _ => 97)
  }

  function LongRow(): Row {
    RowData([0, 0, 0, 0, 0, 0, 0, 0, 0, 0], [LongText(), LongText(), LongText(), []],
            [LongText(), LongText(), LongText()], [[], [], []], false, false, false, Null)
  }

  function EmptyRow(): Row {
    RowData([0, 0, 0, 0, 0, 0, 0, 0, 0, 0], [[], [], [], []], [[], [], []], [[], [], []], false, false, false, Null)
  }

  /** Writing the empty row over the long one needs no room. */
  lemma EmptyRowNeedsNothing(chunk: EntryChunk)
    requires chunk.Valid() && chunk.Len() == 1 && chunk.At(0) == LongRow()
    ensures TextsSound(chunk.text, chunk.texts) && PathsSound(chunk.text, chunk.paths) && |chunk.texts[PARENT]| == 1
    ensures Needed(chunk.Contents(), chunk.pending, 0, EmptyRow()) == 0 && |chunk.text| >= 100
  {
    assert chunk.At(0).texts[NAME] == LongText();
    NothingNeeded(chunk.Contents(), chunk.pending, 0, EmptyRow());
  }

  method StoreLongRow() returns (table: EntryTable)
    ensures table.Valid() && table.rows == [LongRow()]
    ensures fresh(table) && fresh(table.chunks) && |table.chunks| == 1
    ensures table.textChanges == {} && table.changedBlocks == {} && table.chunks[0].pending.None?
  {
    hide Sound, RowsOf, EntryChunk.Valid, BlockIs, EntryChunk.Rows, Live;
    table := new EntryTable();
    NeededBound(EMPTY_BLOCK, None, 0, LongRow());
    var ok := table.Push(LongRow());
    table.FinishUpdate();
  }

  lemma OnlyRow(table: EntryTable, row: Row)
    requires table.Valid() && table.rows == [row]
    ensures |table.chunks| == 1 && table.chunks[0].Valid() && table.chunks[0].Len() == 1 && table.chunks[0].At(0) == row
    ensures |table.chunks[0].text| <= U32_MAX && table.length == 1
  {
    table.Located(0);
  }

  lemma EmptyTableIsDead(chunk: EntryChunk)
    requires chunk.Valid() && chunk.Len() == 1 && chunk.At(0) == EmptyRow()
    ensures Live(chunk.Contents()) == 0
  {
    assert forall c :: 0 <= c < TEXTS ==> EmptyRow().texts[c] == [];
    assert forall c :: 0 <= c < PATHS ==> EmptyRow().paths[c] == [];
    EmptyRowsAreDead(chunk.Contents(), 1);
  }

  /** A run that leaves more than half of an arena dead: the update writes a text that the block already
    * holds over a longer one, so no text is appended and the block is not looked at. */
  method OverwrittenTextRemains() returns (table: EntryTable)
    ensures table.Valid() && table.rows == [EmptyRow()]
    ensures table.textChanges == {} && table.changedBlocks == {}
    ensures |table.chunks| == 1 && !Dense(table.chunks[0])
  {
    hide Sound, RowsOf, EntryChunk.Valid, BlockIs, EntryChunk.Rows, Live, EntryTable.Stores, Needed;
    table := StoreLongRow();
    OnlyRow(table, LongRow());
    var chunk := table.chunks[0];
    EmptyRowNeedsNothing(chunk);
    assert 0 % CHUNK_LENGTH == 0 / CHUNK_LENGTH == 0;
    var ok := table.Set(0, EmptyRow());
    assert table.textChanges == {};
    assert table.rows == [EmptyRow()];
    OnlyRow(table, EmptyRow());
    EmptyTableIsDead(chunk);
    table.FinishUpdate();
  }
}
