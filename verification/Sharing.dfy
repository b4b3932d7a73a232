/** Snapshots that share blocks, and blocks that share columns: cloning copies handles, and a write
  * copies what anyone else still holds (core/src/entry_table.rs, core/src/chunked_vec.rs). Handles are
  * numbers, so that two snapshots, or two columns of one block, can name the same cell. */
module Sharing {
  import opened Common
  import TextArena
  import EntryBlock
  import opened RefCounts

  /** One part of a block that can be shared on its own. The dictionary is copied with its block in the
    * source, which reads the same. */
  datatype Column =
    | Numbers(numbers: seq<int>)
    | Texts(texts: seq<TextArena.TextRef>)
    | Paths(paths: seq<TextArena.PathRef>)
    | Tags(tags: seq<nat>)
    | States(states: seq<bv8>)
    | Arena(text: Bytes)
    | Labels(labels: seq<Bytes>)
    | PropertyMap(properties: map<nat, EntryBlock.Value>)
    | Dictionary(dictionary: Option<map<Bytes, TextArena.TextRef>>)

  type Contents = seq<seq<Column>>

  ghost predicate Fresh(next: nat, used: set<nat>) {
    forall x :: x in used ==> x < next
  }

  /** The columns of a block, read through its handles. */
  ghost function BlockView(blocks: Handles, columns: map<nat, Column>, b: nat): seq<Column>
    requires b in blocks && forall c :: 0 <= c < |blocks[b]| ==> blocks[b][c] in columns
  {
    seq(|blocks[b]|, c requires 0 <= c < |blocks[b]| => columns[blocks[b][c]])
  }

  ghost predicate Readable(tables: Handles, blocks: Handles, columns: map<nat, Column>, t: nat) {
    && t in tables
    && (forall k :: 0 <= k < |tables[t]| ==> tables[t][k] in blocks)
    && (forall k, c :: 0 <= k < |tables[t]| && 0 <= c < |blocks[tables[t][k]]| ==> blocks[tables[t][k]][c] in columns)
  }

  /** What a snapshot reads. */
  ghost function TableView(tables: Handles, blocks: Handles, columns: map<nat, Column>, t: nat): Contents
    requires Readable(tables, blocks, columns, t)
  {
    seq(|tables[t]|, k requires 0 <= k < |tables[t]| => BlockView(blocks, columns, tables[t][k]))
  }

  class Store {
    var tables: Handles
    var blocks: Handles
    var columns: map<nat, Column>
    var blockCounts: map<nat, nat>
    var columnCounts: map<nat, nat>
    var next: nat
    var made: nat    // the tables made so far, which are numbered in turn

    /** Both levels of counts are exact; `spare` is a block that is being built and has no holder yet. */
    ghost predicate Counted(spare: set<nat>)
      reads this
    {
      && Exact(tables, blockCounts) && Exact(blocks, columnCounts)
      && blocks.Keys == blockCounts.Keys + spare && spare !! blockCounts.Keys
      && columns.Keys == columnCounts.Keys
      && Fresh(made, tables.Keys) && Fresh(next, blocks.Keys) && Fresh(next, columns.Keys)
    }

    ghost predicate Valid()
      reads this
    {
      Counted({})
    }

    lemma CanRead(t: nat, spare: set<nat>)
      requires Counted(spare) && t in tables
      ensures Readable(tables, blocks, columns, t)
    {
    }

    ghost function View(t: nat): Contents
      requires Readable(tables, blocks, columns, t)
      reads this
    {
      TableView(tables, blocks, columns, t)
    }

    constructor ()
      ensures Valid() && tables == map[] && made == 0
    {
      tables, blocks, columns, blockCounts, columnCounts, next, made := map[], map[], map[], map[], map[], 0, 0;
    }

    /*** Handles ***/

    method AppendColumn(b: nat, x: nat, ghost spare: set<nat>)
      requires Counted(spare) && b in blocks && x in columns
      modifies `blocks, `columnCounts
      ensures Counted(spare) && blocks == old(blocks)[b := old(blocks[b]) + [x]]
    {
      hide Exact;
      ExactAppend(blocks, columnCounts, b, x);
      columnCounts := Retained(columnCounts, x);
      blocks := blocks[b := blocks[b] + [x]];
    }

    method AppendNewColumn(b: nat, values: Column, ghost spare: set<nat>) returns (x: nat)
      requires Counted(spare) && b in blocks
      modifies `blocks, `columnCounts, `columns, `next
      ensures Counted(spare) && blocks == old(blocks)[b := old(blocks[b]) + [x]]
      ensures x == old(next) && columns == old(columns)[x := values] && next == old(next) + 1 && x !in old(columns)
    {
      x := next;
      next := next + 1;
      ExactAppend(blocks, columnCounts, b, x);
      columnCounts := Retained(columnCounts, x);
      columns := columns[x := values];
      blocks := blocks[b := blocks[b] + [x]];
    }

    method NewBlock() returns (b: nat)
      requires Valid()
      modifies `blocks, `next
      ensures Counted({b}) && b == old(next) && blocks == old(blocks)[b := []] && b !in old(blocks)
    {
      hide Exact;
      b := next;
      next := next + 1;
      ExactOwner(blocks, columnCounts, b);
      blocks := blocks[b := []];
    }

    /** A spare block gets its first holder at the end of a table, or a shared block gets one more. */
    method AppendBlock(t: nat, b: nat, ghost spare: set<nat>)
      requires Counted(spare) && t in tables && b in blocks && spare <= {b}
      modifies `tables, `blockCounts
      ensures Valid() && tables == old(tables)[t := old(tables[t]) + [b]]
    {
      hide Exact;
      ExactAppend(tables, blockCounts, t, b);
      blockCounts := Retained(blockCounts, b);
      tables := tables[t := tables[t] + [b]];
    }

    method ReplaceBlock(t: nat, k: nat, b: nat)
      requires Counted({b}) && t in tables && k < |tables[t]| && blockCounts[tables[t][k]] > 1
      modifies `tables, `blockCounts
      ensures Valid() && tables == old(tables)[t := Put(old(tables[t]), k, b)] && blockCounts[b] == 1
    {
      hide Exact;
      Held(tables, blockCounts, t, k);
      var y := tables[t][k];
      ExactReplace(tables, blockCounts, t, k, b);
      blockCounts := Released(Retained(blockCounts, b), y);
      tables := tables[t := Put(tables[t], k, b)];
    }

    /** Cloning a block copies its column handles into a new block. */
    method CopyBlock(from: nat) returns (b: nat)
      requires Valid() && from in blocks
      modifies `blocks, `columnCounts, `next
      ensures Counted({b}) && b !in old(blocks) && blocks == old(blocks)[b := old(blocks[from])]
    {
      hide Exact;
      var cells := blocks[from];
      b := NewBlock();
      for c := 0 to |cells|
        invariant Counted({b}) && blocks == old(blocks)[b := cells[..c]]
      {
        assert cells[c] in columns by {
          Held(old(blocks), old(columnCounts), from, c);
        }
        AppendColumn(b, cells[c], {b});
        assert cells[..c + 1] == cells[..c] + [cells[c]];
      }
      assert cells[..|cells|] == cells;
    }

    /** Arc::make_mut on a block handle of a table: afterwards no one else holds the block. */
    method MakeMutBlock(t: nat, k: nat) returns (b: nat)
      requires Valid() && t in tables && k < |tables[t]|
      modifies `tables, `blocks, `blockCounts, `columnCounts, `next
      ensures Valid() && b in blocks && blockCounts[b] == 1 && blocks[b] == old(blocks[tables[t][k]])
      ensures tables == old(tables)[t := Put(old(tables[t]), k, b)]
      ensures forall x :: x in old(blocks) ==> x in blocks && blocks[x] == old(blocks[x])
      ensures b in old(blocks) ==>
                b == old(tables[t][k]) && old(blockCounts[tables[t][k]]) == 1 && columnCounts == old(columnCounts)
      ensures forall u :: u in tables ==> Readable(tables, blocks, columns, u) && View(u) == old(View(u))
    {
      hide Exact;
      forall u | u in tables ensures Readable(tables, blocks, columns, u) {
        CanRead(u, {});
      }
      Held(tables, blockCounts, t, k);
      b := tables[t][k];
      if blockCounts[b] != 1 {
        b := CopyBlock(b);
        ReplaceBlock(t, k, b);
      } else {
        assert Put(tables[t], k, b) == tables[t];
      }
      forall u | u in tables ensures Readable(tables, blocks, columns, u) && View(u) == old(View(u)) {
        CanRead(u, {});
        SameView(old(tables), old(blocks), columns, tables, blocks, columns, u);
      }
    }

    /** Put another handle into a column place of a block; a column that loses its last handle is freed. */
    method ReplaceColumn(b: nat, c: nat, x: nat)
      requires Valid() && b in blocks && c < |blocks[b]| && x in columns
      modifies `blocks, `columns, `columnCounts
      ensures Valid() && blocks == old(blocks)[b := Put(old(blocks[b]), c, x)]
      ensures x in columns && forall y :: y in columns ==> y in old(columns) && columns[y] == old(columns[y])
    {
      hide Exact;
      var y := blocks[b][c];
      ExactReplace(blocks, columnCounts, b, c, x);
      columnCounts := Released(Retained(columnCounts, x), y);
      if y !in columnCounts {
        columns := columns - {y};
      }
      blocks := blocks[b := Put(blocks[b], c, x)];
      Held(blocks, columnCounts, b, c);
    }

    /** The same, for a new column. */
    method ReplaceWithNew(b: nat, c: nat, values: Column) returns (x: nat)
      requires Valid() && b in blocks && c < |blocks[b]|
      modifies `blocks, `columns, `columnCounts, `next
      ensures Valid() && blocks == old(blocks)[b := Put(old(blocks[b]), c, x)]
      ensures x !in old(columns) && x in columns && columns[x] == values && columnCounts[x] == 1
      ensures forall y :: y in columns && y != x ==> y in old(columns) && columns[y] == old(columns[y])
    {
      hide Exact;
      x := next;
      next := next + 1;
      var y := blocks[b][c];
      Held(blocks, columnCounts, b, c);
      ExactReplace(blocks, columnCounts, b, c, x);
      columnCounts := Released(Retained(columnCounts, x), y);
      columns := columns[x := values];
      if y !in columnCounts {
        columns := columns - {y};
      }
      blocks := blocks[b := Put(blocks[b], c, x)];
    }

    lemma CanReadAll()
      requires Valid()
      ensures AllReadable(tables, blocks, columns)
    {
      hide Exact;
      forall t | t in tables ensures Readable(tables, blocks, columns, t) {
        CanRead(t, {});
      }
    }

    /** Every snapshot but one keeps its handles and reads what it read. */
    twostate predicate OthersKeep(t: nat)
      requires old(Valid()) && Valid()
      reads this
    {
      forall u :: u in old(tables) && u != t ==>
        && u in tables && tables[u] == old(tables[u])
        && Readable(tables, blocks, columns, u) && old(Readable(tables, blocks, columns, u))
        && View(u) == old(View(u))
    }

    /** New values for a column of a block that nobody else holds. */
    method RenewColumn(t: nat, k: nat, b: nat, c: nat, values: Column) returns (x: nat)
      requires Valid() && t in tables && k < |tables[t]| && b == tables[t][k] && c < |blocks[b]| && blockCounts[b] == 1
      modifies `blocks, `columns, `columnCounts, `next
      ensures Valid() && OthersKeep(t)
      ensures Readable(tables, blocks, columns, t) && old(Readable(tables, blocks, columns, t))
      ensures View(t) == old(View(t))[k := old(View(t))[k][c := values]]
      ensures x in columns && columnCounts[x] == 1 && columns[x] == values
      ensures blocks == old(blocks)[b := Put(old(blocks[b]), c, x)]
      ensures x !in old(columns)
      ensures forall y :: y in columns && y != x ==> y in old(columns) && columns[y] == old(columns[y])
    {
      hide Exact;
      CanReadAll();
      ghost var before, priorColumns := blocks, columns;
      x := ReplaceWithNew(b, c, values);
      CanReadAll();
      assert tables[t][k] == b;
      ghost var view := BlockView(before, priorColumns, b)[c := values];
      assert BlockView(blocks, columns, b) == view;
      EditedBlock(tables, blockCounts, before, priorColumns, blocks, columns, t, k, view);
    }

    /** compact_text: a column of a table gets new values in a new column. */
    method SetColumn(t: nat, k: nat, c: nat, values: Column)
      requires Valid() && t in tables && k < |tables[t]| && c < |blocks[tables[t][k]]|
      modifies `tables, `blocks, `columns, `blockCounts, `columnCounts, `next
      ensures Valid() && OthersKeep(t)
      ensures tables.Keys == old(tables.Keys) && |tables[t]| == |old(tables[t])|
      ensures forall j :: 0 <= j < |tables[t]| && j != k ==> tables[t][j] == old(tables[t][j])
      ensures Readable(tables, blocks, columns, t) && old(Readable(tables, blocks, columns, t))
      ensures View(t) == old(View(t))[k := old(View(t))[k][c := values]]
    {
      hide Exact;
      CanReadAll();
      var b := MakeMutBlock(t, k);
      var x := RenewColumn(t, k, b, c, values);
    }

    /** Arc::make_mut on a column of a block that nobody else holds. */
    method MakeMutColumn(t: nat, k: nat, b: nat, c: nat) returns (x: nat)
      requires Valid() && t in tables && k < |tables[t]| && b == tables[t][k] && c < |blocks[b]| && blockCounts[b] == 1
      modifies `blocks, `columns, `columnCounts, `next
      ensures Valid() && OthersKeep(t)
      ensures Readable(tables, blocks, columns, t) && old(Readable(tables, blocks, columns, t))
      ensures View(t) == old(View(t))
      ensures x in columns && columnCounts[x] == 1 && blocks == old(blocks)[b := Put(old(blocks[b]), c, x)]
      ensures forall y :: y in columns && y in old(columns) ==> columns[y] == old(columns[y])
      ensures x in old(columns) ==> x == old(blocks[b][c]) && old(columnCounts[x]) == 1
    {
      hide Exact;
      CanReadAll();
      Held(blocks, columnCounts, b, c);
      x := blocks[b][c];
      if columnCounts[x] != 1 {
        ghost var v := View(t);
        assert v[k][c] == columns[x] && v[k][c := v[k][c]] == v[k] && v[k := v[k]] == v;
        x := RenewColumn(t, k, b, c, columns[x]);
      } else {
        assert Put(blocks[b], c, x) == blocks[b];
      }
    }

    /** A write to a column that one block holds, in a block that one table holds. */
    method WriteInPlace(t: nat, k: nat, b: nat, c: nat, value: Column)
      requires Valid() && t in tables && k < |tables[t]| && b == tables[t][k] && c < |blocks[b]|
      requires blockCounts[b] == 1 && blocks[b][c] in columns && columnCounts[blocks[b][c]] == 1
      modifies `columns
      ensures Valid() && OthersKeep(t)
      ensures Readable(tables, blocks, columns, t) && old(Readable(tables, blocks, columns, t))
      ensures View(t) == old(View(t))[k := old(View(t))[k][c := value]]
      ensures columns == old(columns)[blocks[b][c] := columns[blocks[b][c]]]
    {
      hide Exact;
      CanReadAll();
      ghost var prior := columns;
      var x := blocks[b][c];
      columns := columns[x := value];
      CanReadAll();
      assert tables[t][k] == b;
      forall d, e | d in blocks && 0 <= e < |blocks[d]| && blocks[d][e] == x ensures d == b && e == c {
        OnlyHolder(blocks, columnCounts, b, c, d, e);
      }
      ghost var view := BlockView(blocks, prior, b)[c := columns[x]];
      assert BlockView(blocks, columns, b) == view;
      EditedBlock(tables, blockCounts, blocks, prior, blocks, columns, t, k, view);
    }

    /** A write to a block that nobody else holds; an equal value is not written. */
    method WriteCell(t: nat, k: nat, b: nat, c: nat, value: Column)
      requires Valid() && t in tables && k < |tables[t]| && b == tables[t][k] && c < |blocks[b]| && blockCounts[b] == 1
      requires blocks[b][c] in columns
      modifies `blocks, `columns, `columnCounts, `next
      ensures Valid() && OthersKeep(t)
      ensures Readable(tables, blocks, columns, t) && old(Readable(tables, blocks, columns, t))
      ensures View(t) == old(View(t))[k := old(View(t))[k][c := value]]
      ensures forall d :: d in old(blocks) && d != b ==> d in blocks && blocks[d] == old(blocks[d])
      ensures forall x :: x in old(columns) && x in columns && columns[x] != old(columns[x]) ==>
                x == old(blocks[b][c]) && old(columnCounts[x]) == 1
    {
      hide Exact;
      CanReadAll();
      ghost var v := View(t);
      var column := columns[blocks[b][c]];
      assert v[k][c] == column;
      if column == value {
        assert v[k][c := v[k][c]] == v[k] && v[k := v[k]] == v;
        return;
      }
      var x := MakeMutColumn(t, k, b, c);
      CanReadAll();
      assert View(t)[k][c] == columns[x];
      WriteInPlace(t, k, b, c, value);
    }

    /** A table writes one part of a block: make_mut on the block and then on the part. Both are written in
      * place only when each has a single holder; every other snapshot keeps its rows, and the other blocks of
      * the table stay shared. */
    method SetCell(t: nat, k: nat, c: nat, value: Column)
      requires Valid() && t in tables && k < |tables[t]| && c < |blocks[tables[t][k]]|
      modifies `tables, `blocks, `columns, `blockCounts, `columnCounts, `next
      ensures Valid() && OthersKeep(t)
      ensures tables.Keys == old(tables.Keys) && |tables[t]| == |old(tables[t])|
      ensures forall j :: 0 <= j < |tables[t]| && j != k ==> tables[t][j] == old(tables[t][j])
      ensures Readable(tables, blocks, columns, t) && old(Readable(tables, blocks, columns, t))
      ensures View(t) == old(View(t))[k := old(View(t))[k][c := value]]
      ensures forall d :: d in old(blocks) && d in blocks && blocks[d] != old(blocks[d]) ==>
                d == old(tables[t][k]) && old(blockCounts[d]) == 1
      ensures forall x :: x in old(columns) && x in columns && columns[x] != old(columns[x]) ==>
                x == old(blocks[tables[t][k]][c]) && old(columnCounts[x]) == 1 && old(blockCounts[tables[t][k]]) == 1
    {
      hide Exact;
      CanReadAll();
      Held(tables, blockCounts, t, k);
      ghost var before := tables[t][k];
      var b := MakeMutBlock(t, k);
      if columnCounts[blocks[b][c]] == 1 {
        OnlyHolder(blocks, columnCounts, b, c, before, c);
      }
      WriteCell(t, k, b, c, value);
    }

    /** One step of compact_integers: a column that equals another of its block becomes a handle to it.
      * No snapshot reads anything else, and the two places then share a column. */
    method ShareColumn(t: nat, k: nat, c: nat, d: nat)
      requires Valid() && t in tables && k < |tables[t]| && c < |blocks[tables[t][k]]| && d < |blocks[tables[t][k]]|
      modifies `tables, `blocks, `columns, `blockCounts, `columnCounts, `next
      ensures Valid() && OthersKeep(t)
      ensures tables.Keys == old(tables.Keys) && |tables[t]| == |old(tables[t])|
      ensures forall j :: 0 <= j < |tables[t]| && j != k ==> tables[t][j] == old(tables[t][j])
      ensures Readable(tables, blocks, columns, t) && old(Readable(tables, blocks, columns, t))
      ensures View(t) == old(View(t))
      ensures View(t)[k][c] == View(t)[k][d] ==> blocks[tables[t][k]][c] == blocks[tables[t][k]][d]
    {
      hide Exact;
      CanReadAll();
      var b := MakeMutBlock(t, k);
      assert tables[t][k] == b;
      CanReadAll();
      ghost var v := View(t);
      assert v[k][c] == columns[blocks[b][c]] && v[k][d] == columns[blocks[b][d]];
      if columns[blocks[b][c]] == columns[blocks[b][d]] {
        AliasColumn(t, k, b, c, d);
      }
    }

    method AliasColumn(t: nat, k: nat, b: nat, c: nat, d: nat)
      requires Valid() && t in tables && k < |tables[t]| && b == tables[t][k] && blockCounts[b] == 1
      requires c < |blocks[b]| && d < |blocks[b]| && blocks[b][c] in columns && blocks[b][d] in columns
      requires columns[blocks[b][c]] == columns[blocks[b][d]]
      modifies `blocks, `columns, `columnCounts
      ensures Valid() && OthersKeep(t)
      ensures Readable(tables, blocks, columns, t) && old(Readable(tables, blocks, columns, t))
      ensures View(t) == old(View(t))
      ensures blocks == old(blocks)[b := Put(old(blocks[b]), c, old(blocks[b][d]))]
    {
      hide Exact;
      CanReadAll();
      ghost var before, prior := blocks, columns;
      ghost var v := View(t);
      ReplaceColumn(b, c, blocks[b][d]);
      CanReadAll();
      assert tables[t][k] == b;
      ghost var view := BlockView(before, prior, b);
      assert BlockView(blocks, columns, b) == view;
      EditedBlock(tables, blockCounts, before, prior, blocks, columns, t, k, view);
      assert v[k := v[k]] == v;
    }

    /** A new table without blocks. */
    method NewTable() returns (t: nat)
      requires Valid()
      modifies `tables, `made
      ensures Valid() && t !in old(tables) && tables == old(tables)[t := []]
      ensures t == old(made) && made == old(made) + 1
    {
      hide Exact;
      t := made;
      made := made + 1;
      ExactOwner(tables, blockCounts, t);
      tables := tables[t := []];
    }

    /** Cloning a snapshot copies its block handles and nothing else. */
    method Clone(t: nat) returns (s: nat)
      requires Valid() && t in tables
      modifies `tables, `blockCounts, `made
      ensures Valid() && s !in old(tables) && tables == old(tables)[s := old(tables[t])]
      ensures s == old(made) && made == old(made) + 1
      ensures AllReadable(tables, blocks, columns) && View(s) == View(t)
    {
      hide Exact;
      var handles := tables[t];
      s := NewTable();
      for k := 0 to |handles|
        invariant Valid() && tables == old(tables)[s := handles[..k]] && made == old(made) + 1
      {
        assert handles[k] in blocks by {
          Held(old(tables), old(blockCounts), t, k);
        }
        AppendBlock(s, handles[k], {});
        assert handles[..k + 1] == handles[..k] + [handles[k]];
      }
      assert handles[..|handles|] == handles;
      CanReadAll();
    }

    method BuildBlock(values: seq<Column>) returns (b: nat)
      requires Valid()
      modifies `blocks, `columns, `columnCounts, `next
      ensures Counted({b}) && b !in old(blocks) && b in blocks && blocks == old(blocks)[b := blocks[b]]
      ensures forall x :: x in old(columns) ==> x in columns && columns[x] == old(columns[x])
      ensures |blocks[b]| == |values|
      ensures forall c :: 0 <= c < |values| ==> blocks[b][c] in columns && columns[blocks[b][c]] == values[c]
    {
      hide Exact, Store.Counted;
      b := NewBlock();
      for c := 0 to |values|
        invariant Counted({b}) && b in blocks && |blocks[b]| == c && blocks == old(blocks)[b := blocks[b]]
        invariant forall x :: x in old(columns) ==> x in columns && columns[x] == old(columns[x])
        invariant forall d :: 0 <= d < c ==> blocks[b][d] in columns && columns[blocks[b][d]] == values[d]
      {
        var x := AppendNewColumn(b, values[c], {b});
      }
    }

    /** A new block at the end of a table. */
    method PushBlock(t: nat, values: seq<Column>)
      requires Valid() && t in tables
      modifies `tables, `blocks, `columns, `blockCounts, `columnCounts, `next
      ensures Valid() && OthersKeep(t)
      ensures tables.Keys == old(tables.Keys) && |tables[t]| == |old(tables[t])| + 1
      ensures forall j :: 0 <= j < |old(tables[t])| ==> tables[t][j] == old(tables[t][j])
      ensures Readable(tables, blocks, columns, t) && old(Readable(tables, blocks, columns, t))
      ensures View(t) == old(View(t)) + [values]
    {
      hide Exact;
      CanReadAll();
      var b := BuildBlock(values);
      AppendBlock(t, b, {b});
      CanReadAll();
      forall u | u in old(tables) && u != t ensures View(u) == old(View(u)) {
        SameView(old(tables), old(blocks), old(columns), tables, blocks, columns, u);
      }
      forall k | 0 <= k < |old(tables[t])| ensures View(t)[k] == old(View(t))[k] {
        assert tables[t][k] == old(tables[t])[k];
      }
      assert BlockView(blocks, columns, b) == values;
    }

    /** The last handle of a block is gone: its column handles go, and columns nobody else names. */
    method FreeBlock(b: nat)
      requires Counted({b})
      modifies `blocks, `columns, `columnCounts
      ensures Valid() && blocks == old(blocks) - {b}
      ensures forall x :: x in columns ==> x in old(columns) && columns[x] == old(columns[x])
    {
      hide Exact;
      while blocks[b] != []
        invariant Counted({b}) && blocks == old(blocks)[b := blocks[b]]
        invariant forall x :: x in columns ==> x in old(columns) && columns[x] == old(columns[x])
        decreases |blocks[b]|
      {
        PopColumn(b);
      }
      ExactRemove(blocks, columnCounts, b);
      blocks := blocks - {b};
    }

    method PopColumn(b: nat)
      requires Counted({b}) && blocks[b] != []
      modifies `blocks, `columns, `columnCounts
      ensures Counted({b}) && blocks == old(blocks)[b := old(blocks[b])[..|old(blocks[b])| - 1]]
      ensures forall x :: x in columns ==> x in old(columns) && columns[x] == old(columns[x])
    {
      hide Exact;
      var last := |blocks[b]| - 1;
      var y := blocks[b][last];
      ExactPop(blocks, columnCounts, b);
      columnCounts := Released(columnCounts, y);
      if y !in columnCounts {
        columns := columns - {y};
      }
      blocks := blocks[b := blocks[b][..last]];
    }

    method PopBlock(t: nat)
      requires Valid() && t in tables && tables[t] != []
      modifies `tables, `blocks, `columns, `blockCounts, `columnCounts, `next
      ensures Valid() && tables == old(tables)[t := old(tables[t])[..|old(tables[t])| - 1]]
      ensures forall d :: d in blocks ==> d in old(blocks) && blocks[d] == old(blocks[d])
      ensures forall x :: x in columns ==> x in old(columns) && columns[x] == old(columns[x])
    {
      hide Exact;
      var last := |tables[t]| - 1;
      var b := tables[t][last];
      ExactPop(tables, blockCounts, t);
      blockCounts := Released(blockCounts, b);
      tables := tables[t := tables[t][..last]];
      if b !in blockCounts {
        FreeBlock(b);
      }
    }

    /** Dropping a snapshot frees what only it held, and no other snapshot reads anything else. */
    method Drop(t: nat)
      requires Valid() && t in tables
      modifies `tables, `blocks, `columns, `blockCounts, `columnCounts, `next
      ensures Valid() && OthersKeep(t) && tables == old(tables) - {t}
    {
      hide Exact;
      CanReadAll();
      while tables[t] != []
        invariant Valid() && t in tables && tables == old(tables)[t := tables[t]]
        invariant forall d :: d in blocks ==> d in old(blocks) && blocks[d] == old(blocks[d])
        invariant forall x :: x in columns ==> x in old(columns) && columns[x] == old(columns[x])
        decreases |tables[t]|
      {
        PopBlock(t);
      }
      ExactRemove(tables, blockCounts, t);
      tables := tables - {t};
      CanReadAll();
      forall u | u in old(tables) && u != t ensures View(u) == old(View(u)) {
        SameView(old(tables), old(blocks), old(columns), tables, blocks, columns, u);
      }
    }

    /** What every living snapshot reads. */
    ghost function Shown(): World
      requires AllReadable(tables, blocks, columns)
      reads this
    {
      World(map t | t in tables :: View(t), made)
    }

    /** Whether its table can take an operation; the source panics on any other. */
    predicate Possible(op: Operation)
      reads this
    {
      match op
      case New => true
      case Clone(t) => t in tables
      case Drop(t) => t in tables
      case Push(t, _) => t in tables
      case Set(t, k, c, _) =>
        t in tables && k < |tables[t]| && tables[t][k] in blocks && c < |blocks[tables[t][k]]|
      case Renew(t, k, c, _) =>
        t in tables && k < |tables[t]| && tables[t][k] in blocks && c < |blocks[tables[t][k]]|
      case Share(t, k, c, d) =>
        && t in tables && k < |tables[t]| && tables[t][k] in blocks
        && c < |blocks[tables[t][k]]| && d < |blocks[tables[t][k]]|
    }

    lemma PossibleIsAble(op: Operation)
      requires Valid() && AllReadable(tables, blocks, columns)
      ensures Possible(op) <==> Able(Shown(), op)
    {
      hide Exact;
    }

    method Step(op: Operation)
      requires Valid()
      modifies this
      ensures Valid()
      ensures old(AllReadable(tables, blocks, columns)) && AllReadable(tables, blocks, columns)
      ensures Shown() == Apply(old(Shown()), op)
      ensures forall u :: u in old(tables) && !Touches(op, u) ==> u in tables && tables[u] == old(tables[u])
      ensures BlocksKept(old(tables), tables, op)
    {
      hide Exact;
      CanReadAll();
      PossibleIsAble(op);
      if Possible(op) {
        match op {
          case New => MakeTable();
          case Clone(t) => MakeClone(t);
          case Drop(t) => DropTable(t);
          case _ => EditTable(op);
        }
      }
    }

    method MakeTable()
      requires Valid()
      modifies `tables, `made
      ensures Valid() && old(AllReadable(tables, blocks, columns)) && AllReadable(tables, blocks, columns)
      ensures Shown() == World(old(Shown()).views[old(made) := []], old(made) + 1)
      ensures forall u :: u in old(tables) ==> u in tables && tables[u] == old(tables[u])
    {
      hide Exact;
      CanReadAll();
      ghost var before := Shown().views;
      var t := NewTable();
      CanReadAll();
      assert View(t) == [];
      assert forall u :: u in old(tables) ==> View(u) == before[u];
      assert Shown().views == before[t := []];
    }

    method MakeClone(t: nat)
      requires Valid() && t in tables
      modifies `tables, `blockCounts, `made
      ensures Valid() && old(AllReadable(tables, blocks, columns)) && AllReadable(tables, blocks, columns)
      ensures Shown() == World(old(Shown()).views[old(made) := old(View(t))], old(made) + 1)
      ensures forall u :: u in old(tables) ==> u in tables && tables[u] == old(tables[u])
    {
      hide Exact;
      CanReadAll();
      ghost var before := Shown().views;
      var s := Clone(t);
      CanReadAll();
      assert forall u :: u in old(tables) ==> View(u) == before[u];
      assert Shown().views == before[s := before[t]];
    }

    method DropTable(t: nat)
      requires Valid() && t in tables
      modifies `tables, `blocks, `columns, `blockCounts, `columnCounts, `next
      ensures Valid() && old(AllReadable(tables, blocks, columns)) && AllReadable(tables, blocks, columns)
      ensures Shown() == World(old(Shown()).views - {t}, made)
      ensures forall u :: u in old(tables) && u != t ==> u in tables && tables[u] == old(tables[u])
    {
      hide Exact;
      CanReadAll();
      ghost var before := Shown().views;
      Drop(t);
      CanReadAll();
      assert Shown().views == before - {t};
    }

    method EditTable(op: Operation)
      requires Valid() && Possible(op) && !op.New? && !op.Clone? && !op.Drop?
      modifies `tables, `blocks, `columns, `blockCounts, `columnCounts, `next
      ensures Valid() && OthersKeep(op.t)
      ensures old(AllReadable(tables, blocks, columns)) && AllReadable(tables, blocks, columns)
      ensures Shown() == World(old(Shown()).views[op.t := Edit(old(View(op.t)), op)], made)
      ensures BlocksKept(old(tables), tables, op)
    {
      hide Exact, Edit, BlocksKept;
      CanReadAll();
      ghost var before, contents := Shown().views, Edit(View(op.t), op);
      EditCells(op);
      CanReadAll();
      assert forall u :: u in before && u != op.t ==> View(u) == before[u];
      assert Shown().views == before[op.t := contents];
    }

    method EditCells(op: Operation)
      requires Valid() && Possible(op) && !op.New? && !op.Clone? && !op.Drop?
      modifies `tables, `blocks, `columns, `blockCounts, `columnCounts, `next
      ensures Valid() && OthersKeep(op.t) && tables.Keys == old(tables.Keys)
      ensures Readable(tables, blocks, columns, op.t) && old(Readable(tables, blocks, columns, op.t))
      ensures View(op.t) == Edit(old(View(op.t)), op)
      ensures BlocksKept(old(tables), tables, op)
    {
      hide Exact, Store.Valid;
      match op {
        case Push(t, values) => PushBlock(t, values);
        case Set(t, k, c, value) => SetCell(t, k, c, value);
        case Renew(t, k, c, values) => SetColumn(t, k, c, values);
        case Share(t, k, c, d) => ShareColumn(t, k, c, d);
      }
    }

    /** Over any run of clones, updates, aliasing, compaction and drops the living snapshots read what they
      * would read if nothing were shared. One that no operation names keeps its handles too, and any other keeps
      * its handles of the blocks that no operation names. */
    method Perform(run: seq<Operation>)
      requires Valid()
      modifies this
      ensures Valid()
      ensures old(AllReadable(tables, blocks, columns)) && AllReadable(tables, blocks, columns)
      ensures Shown() == Fold(old(Shown()), run)
      ensures forall u :: u in old(tables) && Untouched(run, u) ==> u in tables && tables[u] == old(tables[u])
      ensures AllBlocksKept(old(tables), tables, run)
    {
      hide Exact, Store.Shown, Apply, BlocksKept, AllBlocksKept;
      CanReadAll();
      NothingMoved(tables);
      for i := 0 to |run|
        invariant Valid() && AllReadable(tables, blocks, columns) && Shown() == Fold(old(Shown()), run[..i])
        invariant forall u :: u in old(tables) && Untouched(run[..i], u) ==> u in tables && tables[u] == old(tables[u])
        invariant AllBlocksKept(old(tables), tables, run[..i])
      {
        forall u | Untouched(run[..i + 1], u) ensures Untouched(run[..i], u) && !Touches(run[i], u) {
          assert run[..i + 1][i] == run[i];
          assert forall j :: 0 <= j < i ==> run[..i + 1][j] == run[..i][j];
        }
        assert run[..i + 1][..i] == run[..i];
        ghost var middle := tables;
        Step(run[i]);
        KeptMore(old(tables), middle, tables, run[..i], run[i]);
        assert run[..i + 1] == run[..i] + [run[i]];
      }
      assert run[..|run|] == run;
    }
  }

  datatype Operation =
    | New
    | Clone(t: nat)
    | Drop(t: nat)
    | Push(t: nat, values: seq<Column>)
    | Set(t: nat, k: nat, c: nat, value: Column)
    | Renew(t: nat, k: nat, c: nat, value: Column)
    | Share(t: nat, k: nat, c: nat, d: nat)

  // ---------- Snapshots that share nothing ----------

  datatype World = World(views: map<nat, Contents>, made: nat)

  /** The operation fits what a table holds. */
  predicate Fits(contents: Contents, op: Operation) {
    match op
    case Set(_, k, c, _) => k < |contents| && c < |contents[k]|
    case Renew(_, k, c, _) => k < |contents| && c < |contents[k]|
    case Share(_, k, c, d) => k < |contents| && c < |contents[k]| && d < |contents[k]|
    case _ => true
  }

  predicate Able(w: World, op: Operation) {
    op.New? || (op.t in w.views && Fits(w.views[op.t], op))
  }

  /** What an operation on a table of its own makes of its contents. */
  function Edit(contents: Contents, op: Operation): Contents {
    if !Fits(contents, op) then contents
    else
      match op
      case Push(_, values) => contents + [values]
      case Set(_, k, c, value) => contents[k := contents[k][c := value]]
      case Renew(_, k, c, value) => contents[k := contents[k][c := value]]
      case _ => contents
  }

  function Apply(w: World, op: Operation): World {
    if !Able(w, op) then w
    else
      match op
      case New => World(w.views[w.made := []], w.made + 1)
      case Clone(t) => World(w.views[w.made := w.views[t]], w.made + 1)
      case Drop(t) => World(w.views - {t}, w.made)
      case _ => World(w.views[op.t := Edit(w.views[op.t], op)], w.made)
  }

  function Fold(w: World, run: seq<Operation>): World {
    if run == [] then w else Apply(Fold(w, run[..|run| - 1]), run[|run| - 1])
  }

  ghost predicate Numbered(w: World) {
    forall t :: t in w.views ==> t < w.made
  }

  /** What the operations of a run that name the table make of its contents. */
  function Own(contents: Contents, run: seq<Operation>, u: nat): Contents {
    if run == [] then contents
    else
      var before, op := Own(contents, run[..|run| - 1], u), run[|run| - 1];
      if Touches(op, u) then Edit(before, op) else before
  }

  /** At the end of a run, a table reads its own operations and nobody else's. */
  lemma {:induction false} OwnOnly(w: World, run: seq<Operation>, u: nat)
    requires Numbered(w) && u in w.views && forall i :: 0 <= i < |run| ==> run[i] != Drop(u)
    ensures Numbered(Fold(w, run)) && w.made <= Fold(w, run).made
    ensures u in Fold(w, run).views && Fold(w, run).views[u] == Own(w.views[u], run, u)
    decreases |run|
  {
    if run != [] {
      OwnOnly(w, run[..|run| - 1], u);
    }
  }

  /** A clone reads what its original read then, followed by its own operations. */
  lemma CloneReads(w: World, t: nat, run: seq<Operation>)
    requires Numbered(w) && t in w.views && forall i :: 0 <= i < |run| ==> run[i] != Drop(w.made)
    ensures var after := Fold(Apply(w, Clone(t)), run);
            w.made in after.views && after.views[w.made] == Own(w.views[t], run, w.made)
  {
    OwnOnly(Apply(w, Clone(t)), run, w.made);
  }

  /** The operation changes or drops the table. */
  predicate Touches(op: Operation, u: nat) {
    !op.New? && !op.Clone? && op.t == u
  }

  /** The operation changes block j of the table, or drops the table. */
  predicate TouchesBlock(op: Operation, u: nat, j: nat) {
    match op
    case Drop(t) => t == u
    case Set(t, k, _, _) => t == u && k == j
    case Renew(t, k, _, _) => t == u && k == j
    case Share(t, k, _, _) => t == u && k == j
    case _ => false
  }

  ghost predicate BlocksKept(before: Handles, after: Handles, op: Operation) {
    forall u, j :: u in before && 0 <= j < |before[u]| && !TouchesBlock(op, u, j) ==>
      u in after && j < |after[u]| && after[u][j] == before[u][j]
  }

  ghost predicate BlockUntouched(run: seq<Operation>, u: nat, j: nat) {
    forall i :: 0 <= i < |run| ==> !TouchesBlock(run[i], u, j)
  }

  ghost predicate AllBlocksKept(before: Handles, after: Handles, run: seq<Operation>) {
    forall u, j :: u in before && 0 <= j < |before[u]| && BlockUntouched(run, u, j) ==>
      u in after && j < |after[u]| && after[u][j] == before[u][j]
  }

  lemma NothingMoved(tables: Handles)
    ensures AllBlocksKept(tables, tables, [])
  {
  }

  lemma KeptMore(before: Handles, middle: Handles, after: Handles, run: seq<Operation>, op: Operation)
    requires AllBlocksKept(before, middle, run) && BlocksKept(middle, after, op)
    ensures AllBlocksKept(before, after, run + [op])
  {
    forall u, j | u in before && 0 <= j < |before[u]| && BlockUntouched(run + [op], u, j)
      ensures u in after && j < |after[u]| && after[u][j] == before[u][j]
    {
      assert (run + [op])[|run|] == op;
      assert forall i :: 0 <= i < |run| ==> (run + [op])[i] == run[i];
      assert BlockUntouched(run, u, j);
    }
  }

  ghost predicate Untouched(run: seq<Operation>, u: nat) {
    forall i :: 0 <= i < |run| ==> !Touches(run[i], u)
  }

  /** Two readable snapshots with equal columns at equal places read the same. */
  lemma SameView(
    tables: Handles, blocks: Handles, columns: map<nat, Column>,
    tables': Handles, blocks': Handles, columns': map<nat, Column>, t: nat)
    requires Readable(tables, blocks, columns, t) && Readable(tables', blocks', columns', t)
    requires |tables'[t]| == |tables[t]|
    requires forall k :: 0 <= k < |tables[t]| ==>
               BlockView(blocks', columns', tables'[t][k]) == BlockView(blocks, columns, tables[t][k])
    ensures TableView(tables', blocks', columns', t) == TableView(tables, blocks, columns, t)
  {
  }

  ghost predicate AllReadable(tables: Handles, blocks: Handles, columns: map<nat, Column>) {
    forall t :: t in tables ==> Readable(tables, blocks, columns, t)
  }

  /** Every block but one reads the same. */
  ghost predicate SameBlocks(
    blocks: Handles, columns: map<nat, Column>, blocks': Handles, columns': map<nat, Column>, tables: Handles, b: nat)
    requires AllReadable(tables, blocks, columns) && AllReadable(tables, blocks', columns')
  {
    forall u, j :: u in tables && 0 <= j < |tables[u]| && tables[u][j] != b ==>
      BlockView(blocks', columns', tables[u][j]) == BlockView(blocks, columns, tables[u][j])
  }

  /** A change to a block with one holder is seen by that holder alone. */
  lemma EditedBlock(
    tables: Handles, counts: map<nat, nat>, blocks: Handles, columns: map<nat, Column>,
    blocks': Handles, columns': map<nat, Column>, t: nat, k: nat, view: seq<Column>)
    requires AllReadable(tables, blocks, columns) && AllReadable(tables, blocks', columns')
    requires Exact(tables, counts) && t in tables && k < |tables[t]| && counts[tables[t][k]] == 1
    requires SameBlocks(blocks, columns, blocks', columns', tables, tables[t][k])
    requires BlockView(blocks', columns', tables[t][k]) == view
    ensures forall u :: u in tables && u != t ==>
              TableView(tables, blocks', columns', u) == TableView(tables, blocks, columns, u)
    ensures TableView(tables, blocks', columns', t) == TableView(tables, blocks, columns, t)[k := view]
  {
    forall u, j | u in tables && 0 <= j < |tables[u]| && tables[u][j] == tables[t][k] ensures u == t && j == k {
      OnlyHolder(tables, counts, t, k, u, j);
    }
    forall u | u in tables && u != t
      ensures TableView(tables, blocks', columns', u) == TableView(tables, blocks, columns, u)
    {
      SameView(tables, blocks, columns, tables, blocks', columns', u);
    }
  }
}
