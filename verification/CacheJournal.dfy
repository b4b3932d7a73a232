/** The bounded journal of changed file ids beside the metadata tables. Triggers
    record every id whose visible row may have changed since the last cache
    checkpoint; replaying the recorded ids over the checkpointed rows gives the
    current rows, or the journal says that it cannot. */
module CacheJournal {
  import opened Common

  const MAX_IDS := 65_536

  /** A row of `files`: `meta` stands for all columns that the update trigger
      compares besides the path and accessibility, `seen` for the one it does not. */
  datatype FileRow = FileRow(path: string, meta: int, accessible: bool, seen: int)

  datatype Content = Content(body: int, properties: int)

  const NO_PROPERTIES := 0

  /** What a reader sees of a file. */
  datatype Visible = Visible(path: string, meta: int, properties: int, contentIndexed: bool)

  type Rows = map<int, Visible>

  type Delta = seq<(int, Option<Visible>)>

  /** The tables, as a transaction saves and restores them. */
  datatype Snapshot = Snapshot(
    files: map<int, FileRow>, content: map<string, Content>, journal: set<int>, pendingCount: int, overflow: bool)

  /** What names a cache file: the generation of its snapshot and the revision of its rows. */
  datatype Version = Version(generation: nat, revision: nat)

  datatype CacheFile = CacheFile(version: Version, rows: Rows)

  function RowOf(files: map<int, FileRow>, content: map<string, Content>, id: int): Option<Visible> {
    if id in files && files[id].accessible then
      var f := files[id];
      Some(if f.path in content then Visible(f.path, f.meta, content[f.path].properties, true)
           else Visible(f.path, f.meta, NO_PROPERTIES, false))
    else None
  }

  /** Equal in every column that the update trigger compares. */
  predicate OnlySeen(before: FileRow, after: FileRow) {
    before.path == after.path && before.meta == after.meta && before.accessible == after.accessible
  }

  function Lookup(rows: Rows, id: int): Option<Visible> {
    if id in rows then Some(rows[id]) else None
  }

  function AllRows(files: map<int, FileRow>, content: map<string, Content>): Rows {
    map id | id in files && files[id].accessible :: RowOf(files, content, id).value
  }

  /** Apply one delta: a missing row is a tombstone. */
  function Apply(rows: Rows, delta: Delta): Rows {
    if delta == [] then rows
    else
      var (id, row) := delta[|delta| - 1];
      var before := Apply(rows, delta[..|delta| - 1]);
      if row.Some? then before[id := row.value] else before - {id}
  }

  ghost predicate Increasing(delta: Delta) {
    forall i, j :: 0 <= i < j < |delta| ==> delta[i].0 < delta[j].0
  }

  lemma {:induction false} ApplyLookup(rows: Rows, delta: Delta, id: int)
    requires Increasing(delta)
    ensures (forall k :: 0 <= k < |delta| ==> delta[k].0 != id) ==> Lookup(Apply(rows, delta), id) == Lookup(rows, id)
    ensures forall k :: 0 <= k < |delta| && delta[k].0 == id ==> Lookup(Apply(rows, delta), id) == delta[k].1
  {
    if delta != [] { ApplyLookup(rows, delta[..|delta| - 1], id); }
  }

  lemma Inhabited(s: set<int>)
    requires s != {}
    ensures exists i :: i in s
  {
    var empty: set<int> := {};
    assert (forall i :: i !in s) ==> s == empty;
  }

  /** The files at a path: at most one, as paths are unique. */
  function PathIds(files: map<int, FileRow>, path: string): set<int> {
    set id | id in files && files[id].path == path
  }

  predicate Holds(content: map<string, Content>, path: string, value: Content) {
    path in content && content[path] == value
  }

  // ---------- The database without its journal ----------

  datatype SavedState = SavedState(files: map<int, FileRow>, content: map<string, Content>, edited: set<int>)

  /** The tables, and beside them the ids edited since the checkpoint in a set without a bound. */
  datatype State = State(
    files: map<int, FileRow>, content: map<string, Content>, edited: set<int>, revision: nat, changed: nat,
    base: Option<Version>, cached: Option<Version>, saved: Option<SavedState>)

  const Empty: State := State(map[], map[], {}, 0, 0, None, None, None)

  datatype Op =
    | Insert(id: int, row: FileRow)
    | Delete(id: int)
    | Update(id: int, row: FileRow)
    | Put(path: string, value: Content)
    | Drop(path: string)
    | Mark
    | Begin
    | Commit
    | Rollback
    | Publish(version: Version)
    | Checkpoint(version: Version)

  /** Edits are made inside a transaction, checkpoints between two, and only a revision that exists is published. */
  ghost predicate Allowed(s: State, op: Op) {
    match op
    case Begin => s.saved.None?
    case Publish(version) => version.revision <= s.revision
    case Checkpoint(_) => s.saved.None?
    case _ => s.saved.Some?
  }

  /** A row may take a path that no other row has. */
  predicate Free(files: map<int, FileRow>, id: int, path: string) {
    forall i :: i in files && i != id ==> files[i].path != path
  }

  ghost function EditedFile(s: State, files: map<int, FileRow>, id: int): State {
    s.(files := files, edited := s.edited + {id}, changed := s.changed + 1)
  }

  ghost function EditedContent(s: State, content: map<string, Content>, path: string): State {
    s.(content := content, edited := s.edited + PathIds(s.files, path), changed := s.changed + 1)
  }

  ghost function Step(s: State, op: Op): State
    requires Allowed(s, op)
  {
    match op
    case Insert(id, row) =>
      if id in s.files || !Free(s.files, id, row.path) then s else EditedFile(s, s.files[id := row], id)
    case Delete(id) =>
      if id !in s.files then s
      else EditedFile(s, s.files - {id}, id).(content := s.content - {s.files[id].path})
    case Update(id, row) =>
      if id !in s.files || !Free(s.files, id, row.path) then s
      else if OnlySeen(s.files[id], row) then s.(files := s.files[id := row])
      else EditedFile(s, s.files[id := row], id)
    case Put(path, value) =>
      if Holds(s.content, path, value) then s else EditedContent(s, s.content[path := value], path)
    case Drop(path) =>
      if path !in s.content then s else EditedContent(s, s.content - {path}, path)
    case Mark => s.(changed := s.changed + 1)
    case Begin => s.(saved := Some(SavedState(s.files, s.content, s.edited)))
    case Commit => s.(revision := s.revision + (if s.changed > 0 then 1 else 0), changed := 0, saved := None)
    case Rollback =>
      var before := s.saved.value;
      s.(files := before.files, content := before.content, edited := before.edited, changed := 0, saved := None)
    case Publish(version) => s.(cached := Some(version))
    case Checkpoint(version) => if version.revision != s.revision then s else s.(base := Some(version), edited := {})
  }

  ghost predicate Legal(s: State, ops: seq<Op>)
    decreases |ops|
  {
    ops == [] || (Allowed(s, ops[0]) && Legal(Step(s, ops[0]), ops[1..]))
  }

  ghost function Run(s: State, ops: seq<Op>): State
    requires Legal(s, ops)
    decreases |ops|
  {
    if ops == [] then s else Run(Step(s, ops[0]), ops[1..])
  }

  ghost predicate IsEdit(op: Op) {
    op.Insert? || op.Delete? || op.Update? || op.Put? || op.Drop? || op.Mark?
  }

  /** Edits leave what the open transaction will be rolled back to, and forget no edited id. */
  lemma {:induction false} EditsKeep(s: State, edits: seq<Op>)
    requires s.saved.Some? && forall k :: 0 <= k < |edits| ==> IsEdit(edits[k])
    ensures Legal(s, edits)
    ensures var t := Run(s, edits);
            && t.saved == s.saved && t.revision == s.revision && t.base == s.base && t.cached == s.cached
            && s.edited <= t.edited && s.changed <= t.changed
    decreases |edits|
  {
    if edits != [] {
      assert IsEdit(edits[0]);
      EditsKeep(Step(s, edits[0]), edits[1..]);
    }
  }

  lemma {:induction false} RunMore(s: State, ops: seq<Op>, more: seq<Op>)
    requires Legal(s, ops) && Legal(Run(s, ops), more)
    ensures Legal(s, ops + more) && Run(s, ops + more) == Run(Run(s, ops), more)
    decreases |ops|
  {
    if ops == [] {
      assert ops + more == more;
    } else {
      assert (ops + more)[1..] == ops[1..] + more;
      RunMore(Step(s, ops[0]), ops[1..], more);
    }
  }

  /** A transaction that is rolled back leaves nothing behind, neither rows nor edited ids, whatever it did. */
  lemma RolledBack(s: State, edits: seq<Op>)
    requires s.saved.None? && s.changed == 0 && forall k :: 0 <= k < |edits| ==> IsEdit(edits[k])
    ensures Legal(s, [Begin] + edits + [Rollback]) && Run(s, [Begin] + edits + [Rollback]) == s
  {
    var begun := Step(s, Begin);
    assert Run(s, [Begin]) == begun && Legal(s, [Begin]);
    EditsKeep(begun, edits);
    RunMore(s, [Begin], edits);
    var done := Run(begun, edits);
    assert Legal(done, [Rollback]) && Run(done, [Rollback]) == Step(done, Rollback);
    RunMore(s, [Begin] + edits, [Rollback]);
  }

  /** There is a checkpoint with its cache file in place, and either no later revision or a journal that
    * holds what was edited since. */
  ghost predicate Recoverable(s: State) {
    && s.base.Some? && s.cached == s.base
    && (s.revision == s.base.value.revision || 0 < |s.edited| <= MAX_IDS)
  }

  /** Until the next checkpoint the ids edited by committed transactions only become more. */
  lemma {:induction false} EditedGrows(s: State, ops: seq<Op>, ids: set<int>)
    requires Legal(s, ops) && forall k :: 0 <= k < |ops| ==> !ops[k].Checkpoint?
    requires ids <= s.edited && (s.saved.Some? ==> ids <= s.saved.value.edited)
    ensures var t := Run(s, ops); ids <= t.edited && t.base == s.base && s.revision <= t.revision
    decreases |ops|
  {
    if ops != [] {
      assert !ops[0].Checkpoint?;
      EditedGrows(Step(s, ops[0]), ops[1..], ids);
    }
  }

  /** Ids were edited since the checkpoint only in transactions that made, or will make, a later revision. */
  ghost predicate Dated(s: State) {
    && (s.base.Some? ==> s.base.value.revision <= s.revision)
    && (s.base.Some? && s.base.value.revision == s.revision ==>
          if s.saved.Some? then s.saved.value.edited == {} else s.edited == {})
    && (s.saved.Some? && s.changed == 0 ==> s.edited == s.saved.value.edited)
    && (s.saved.None? ==> s.changed == 0)
  }

  lemma {:induction false} RunDated(s: State, ops: seq<Op>)
    requires Legal(s, ops) && Dated(s)
    ensures Dated(Run(s, ops))
    decreases |ops|
  {
    if ops != [] { RunDated(Step(s, ops[0]), ops[1..]); }
  }

  /** Once more ids than the journal may hold were edited since the checkpoint, recovery refuses until the next. */
  lemma StaysRefused(ops: seq<Op>, more: seq<Op>)
    requires Legal(Empty, ops) && Legal(Run(Empty, ops), more)
    requires Run(Empty, ops).saved.None? && |Run(Empty, ops).edited| > MAX_IDS
    requires forall k :: 0 <= k < |more| ==> !more[k].Checkpoint?
    ensures Legal(Empty, ops + more) && !Recoverable(Run(Empty, ops + more))
  {
    var s := Run(Empty, ops);
    RunMore(Empty, ops, more);
    RunDated(Empty, ops);
    EditedGrows(s, more, s.edited);
    var now := Run(s, more).edited;
    assert |now| == |s.edited| + |now - s.edited| by {
      assert s.edited + (now - s.edited) == now;
    }
  }

  ghost predicate UniquePaths(files: map<int, FileRow>) {
    forall i, j :: i in files && j in files && files[i].path == files[j].path ==> i == j
  }

  /** The journal is counted and bounded. With a checkpoint it is exactly the set of ids edited since, until
    * those are more than it may hold; from then on it is empty and marked. */
  ghost predicate Exact(journal: set<int>, pendingCount: int, overflow: bool, based: bool, since: set<int>) {
    && pendingCount == |journal| <= MAX_IDS
    && (based ==> (overflow <==> |since| > MAX_IDS) && journal == (if overflow then {} else since))
    && (!based ==> journal == {} && !overflow)
  }

  /** Every id whose visible row differs from the base was edited since. */
  ghost predicate Covers(files: map<int, FileRow>, content: map<string, Content>, base: Rows, since: set<int>) {
    forall id :: id !in since ==> RowOf(files, content, id) == Lookup(base, id)
  }

  class Database {
    var files: map<int, FileRow>
    var content: map<string, Content>
    var journal: set<int>
    var pendingCount: int
    var overflow: bool
    var revision: nat
    var published: map<nat, Rows>    // what a reader of each revision sees
    var base: Option<Version>        // the cache file of the last checkpoint
    var cached: Option<CacheFile>
    var saved: Option<Snapshot>      // the tables at the beginning of an open transaction
    var changed: nat                 // the rows that the open transaction has changed
    ghost var edited: set<int>       // the ids edited since the last checkpoint and not rolled back
    ghost var savedEdited: set<int>

    ghost predicate Journaled()
      reads `journal, `pendingCount, `overflow, `base, `edited
    {
      Exact(journal, pendingCount, overflow, base.Some?, edited)
    }

    /** Tables in step with a set of ids edited since the checkpoint. */
    ghost predicate InStep(s: Snapshot, since: set<int>)
      reads `revision, `base, `published
    {
      && UniquePaths(s.files)
      && Exact(s.journal, s.pendingCount, s.overflow, base.Some?, since)
      && (base.Some? ==>
            && base.value.revision in published && base.value.revision <= revision
            && Covers(s.files, s.content, published[base.value.revision], since))
    }

    /** Committed tables: they are what the revision published, and at the revision of the checkpoint
      * nothing was edited since. */
    ghost predicate Committed(s: Snapshot, since: set<int>)
      reads `revision, `base, `published
    {
      && revision in published && published[revision] == AllRows(s.files, s.content)
      && (base.Some? && base.value.revision == revision ==> since == {})
    }

    function Tables(): Snapshot
      reads this
    {
      Snapshot(files, content, journal, pendingCount, overflow)
    }

    /** A transaction that has counted no change shows what it began with, and has edited nothing. */
    ghost predicate Counted()
      reads this
    {
      saved.Some? && changed == 0 ==>
        && AllRows(files, content) == AllRows(saved.value.files, saved.value.content)
        && edited == savedEdited
    }

    ghost predicate Valid()
      reads this
    {
      && InStep(Tables(), edited)
      && (saved.None? ==> Committed(Tables(), edited) && changed == 0)
      && (saved.Some? ==> InStep(saved.value, savedEdited) && Committed(saved.value, savedEdited))
      && Counted()
      && (forall r :: r in published <==> 0 <= r <= revision)
      && (cached.Some? ==>
            cached.value.version.revision in published
            && cached.value.rows == published[cached.value.version.revision])
    }

    constructor ()
      ensures Valid() && View() == Empty
    {
      files, content, journal, pendingCount, overflow := map[], map[], {}, 0, false;
      revision, base, cached, saved, changed := 0, None, None, None, 0;
      edited, savedEdited, published := {}, {}, map[0 := map[]];
      new;
      assert AllRows(files, content) == map[];
    }

    // ---------- The triggers ----------

    /** One deletion from the journal, which the counter follows. The limit trigger compares the new count
      * and stays silent. */
    method CountDelete()
      requires pendingCount == |journal| + 1 <= MAX_IDS + 1
      modifies `pendingCount
      ensures pendingCount == |journal| <= MAX_IDS
    {
      pendingCount := pendingCount - 1;
    }

    method DeleteAllChanges()
      requires pendingCount == |journal| <= MAX_IDS + 1
      modifies `journal, `pendingCount
      ensures journal == {} && pendingCount == 0
    {
      while journal != {}
        invariant pendingCount == |journal| <= MAX_IDS + 1
        decreases journal
      {
        Inhabited(journal);
        var id :| id in journal;
        journal := journal - {id};
        CountDelete();
      }
    }

    /** Counting one insertion; beyond the limit the journal is given up. */
    method CountInsert()
      requires pendingCount + 1 == |journal| <= MAX_IDS + 1
      modifies `journal, `pendingCount, `overflow
      ensures pendingCount == |journal| <= MAX_IDS
      ensures |old(journal)| <= MAX_IDS ==> journal == old(journal) && overflow == old(overflow)
      ensures |old(journal)| > MAX_IDS ==> journal == {} && overflow
    {
      pendingCount := pendingCount + 1;
      if pendingCount > MAX_IDS {
        overflow := true;
        DeleteAllChanges();
      }
    }

    /** `INSERT INTO cache_changes ... ON CONFLICT DO NOTHING`, when there is a
      * checkpoint to be relative to and the journal has not overflowed. */
    method Record(id: int)
      requires Journaled()
      modifies `journal, `pendingCount, `overflow, `edited
      ensures Journaled() && edited == old(edited) + {id}
      ensures old(overflow) ==> overflow
      ensures base.Some? && !overflow ==> journal == old(journal) + {id}
      ensures overflow && !old(overflow) ==> |old(journal)| == MAX_IDS && id !in old(journal)
    {
      GrownSet(edited, id);
      edited := edited + {id};
      if base.None? || overflow || id in journal {
        return;
      }
      journal := journal + {id};
      CountInsert();
    }

    // ---------- Edits, inside a transaction ----------

    /** What an edit of one row keeps: its id joins the edited ones, and the rest of the tables show what
      * they showed. */
    method EditRow(id: int, ghost before: Snapshot)
      requires InStep(before, edited) && saved.Some?
      requires before.journal == journal && before.pendingCount == pendingCount && before.overflow == overflow
      requires UniquePaths(files)
      requires forall i :: i != id ==> RowOf(files, content, i) == RowOf(before.files, before.content, i)
      modifies `journal, `pendingCount, `overflow, `edited
      ensures InStep(Tables(), edited) && edited == old(edited) + {id}
      ensures old(overflow) ==> overflow
      ensures base.Some? && !overflow ==> journal == old(journal) + {id}
      ensures overflow && !old(overflow) ==> |old(journal)| == MAX_IDS && id !in old(journal)
    {
      hide RowOf, Exact, Covers;
      if base.Some? {
        CoversEdit(before, Tables(), published[base.value.revision], edited, id);
      }
      Record(id);
    }

    /** Insertion is refused when the id or the path exists. */
    method InsertFile(id: int, row: FileRow) returns (ok: bool)
      requires Valid() && saved.Some?
      modifies `files, `journal, `pendingCount, `overflow, `edited, `changed
      ensures Valid()
      ensures ok <==> id !in old(files) && Free(old(files), id, row.path)
      ensures files == if ok then old(files)[id := row] else old(files)
      ensures edited == old(edited) + (if ok then {id} else {})
      ensures changed == old(changed) + (if ok then 1 else 0)
      ensures old(overflow) ==> overflow
      ensures base.Some? && !overflow ==> journal == old(journal) + (if ok then {id} else {})
      ensures overflow && !old(overflow) ==> |old(journal)| == MAX_IDS && id !in old(journal)
    {
      hide RowOf, Exact, Covers;
      if id in files || !Free(files, id, row.path) {
        assert journal + {} == journal;
        return false;
      }
      ghost var before := Tables();
      RowInserted(files, content, id, row);
      files := files[id := row];
      changed := changed + 1;
      EditRow(id, before);
      ok := true;
    }

    /** Deletion takes the file's content with it. */
    method DeleteFile(id: int)
      requires Valid() && saved.Some?
      modifies `files, `content, `journal, `pendingCount, `overflow, `edited, `changed
      ensures Valid()
      ensures files == old(files) - {id}
      ensures content == if id in old(files) then old(content) - {old(files)[id].path} else old(content)
      ensures edited == old(edited) + (if id in old(files) then {id} else {})
      ensures changed == old(changed) + (if id in old(files) then 1 else 0)
      ensures old(overflow) ==> overflow
      ensures base.Some? && !overflow ==> journal == old(journal) + (if id in old(files) then {id} else {})
      ensures overflow && !old(overflow) ==> |old(journal)| == MAX_IDS && id !in old(journal)
    {
      hide RowOf, Exact, Covers, UniquePaths;
      if id !in files {
        assert files == files - {id} && journal + {} == journal;
        return;
      }
      ghost var before := Tables();
      RowDeleted(files, content, id);
      content := content - {files[id].path};
      files := files - {id};
      changed := changed + 1;
      EditRow(id, before);
    }

    /** An update of `seen` alone runs no trigger and is no change. */
    method TouchFile(id: int, row: FileRow)
      requires Valid() && saved.Some? && id in files && OnlySeen(files[id], row)
      modifies `files
      ensures Valid() && files == old(files)[id := row]
    {
      hide RowOf, Exact, Covers;
      ghost var before := Tables();
      RowKept(files, files[id := row], content, id);
      files := files[id := row];
      SameVisible(before.files, files, content);
      if base.Some? {
        CoversSame(before, Tables(), published[base.value.revision], edited);
      }
    }

    /** An update of any other column. */
    method ChangeFile(id: int, row: FileRow)
      requires Valid() && saved.Some? && id in files && UniquePaths(files[id := row])
      modifies `files, `journal, `pendingCount, `overflow, `edited, `changed
      ensures Valid() && files == old(files)[id := row] && edited == old(edited) + {id} && changed == old(changed) + 1
      ensures old(overflow) ==> overflow
      ensures base.Some? && !overflow ==> journal == old(journal) + {id}
      ensures overflow && !old(overflow) ==> |old(journal)| == MAX_IDS && id !in old(journal)
    {
      hide RowOf, Exact, Covers, UniquePaths;
      ghost var before := Tables();
      RowKept(files, files[id := row], content, id);
      files := files[id := row];
      changed := changed + 1;
      EditRow(id, before);
    }

    /** The trigger compares every column a reader can see, and the path. */
    method UpdateFile(id: int, row: FileRow) returns (ok: bool)
      requires Valid() && saved.Some?
      modifies `files, `journal, `pendingCount, `overflow, `edited, `changed
      ensures Valid()
      ensures ok <==> id in old(files) && Free(old(files), id, row.path)
      ensures files == if ok then old(files)[id := row] else old(files)
      ensures edited == old(edited) + (if ok && !OnlySeen(old(files)[id], row) then {id} else {})
      ensures changed == old(changed) + (if ok && !OnlySeen(old(files)[id], row) then 1 else 0)
      ensures old(overflow) ==> overflow
      ensures base.Some? && !overflow ==>
                journal == old(journal) + (if ok && !OnlySeen(old(files)[id], row) then {id} else {})
      ensures overflow && !old(overflow) ==> |old(journal)| == MAX_IDS && id !in old(journal)
    {
      hide OnlySeen, Exact, Covers;
      ok := id in files && Free(files, id, row.path);
      assert journal + {} == journal;
      if ok && OnlySeen(files[id], row) {
        TouchFile(id, row);
      } else if ok {
        ChangeFile(id, row);
      }
    }

    /** Edit the file at `path`, if any, after its content changed. */
    method EditPath(path: string, ghost before: Snapshot)
      requires InStep(before, edited) && saved.Some? && before.files == files
      requires before.journal == journal && before.pendingCount == pendingCount && before.overflow == overflow
      requires forall i :: i !in PathIds(files, path) ==> RowOf(files, content, i) == RowOf(files, before.content, i)
      modifies `journal, `pendingCount, `overflow, `edited
      ensures InStep(Tables(), edited) && edited == old(edited) + PathIds(files, path)
      ensures old(overflow) ==> overflow
      ensures overflow && !old(overflow) ==> |old(journal)| == MAX_IDS && !(PathIds(files, path) <= old(journal))
      ensures base.Some? && !overflow ==> journal == old(journal) + PathIds(files, path)
    {
      hide RowOf, Exact, Covers;
      var ids := PathIds(files, path);
      if ids == {} {
        if base.Some? {
          CoversSame(before, Tables(), published[base.value.revision], edited);
        }
        return;
      }
      Inhabited(ids);
      var id :| id in ids;
      OnePath(files, path, id);
      EditRow(id, before);
    }

    /** An upsert that changes nothing runs no trigger. */
    method PutContent(path: string, value: Content)
      requires Valid() && saved.Some?
      modifies `content, `journal, `pendingCount, `overflow, `edited, `changed
      ensures Valid() && content == old(content)[path := value]
      ensures edited == old(edited) + if Holds(old(content), path, value) then {} else PathIds(files, path)
      ensures changed == old(changed) + if Holds(old(content), path, value) then 0 else 1
      ensures old(overflow) ==> overflow
      ensures overflow && !old(overflow) ==>
                |old(journal)| == MAX_IDS && !Holds(old(content), path, value)
                && !(PathIds(files, path) <= old(journal))
      ensures base.Some? && !overflow ==>
                journal == old(journal) + if Holds(old(content), path, value) then {} else PathIds(files, path)
    {
      hide RowOf, Exact, Covers, PathIds;
      if Holds(content, path, value) {
        assert content == content[path := value] && journal + {} == journal;
        return;
      }
      ghost var before := Tables();
      ContentKept(files, content, content[path := value], path);
      content := content[path := value];
      changed := changed + 1;
      EditPath(path, before);
    }

    method DeleteContent(path: string)
      requires Valid() && saved.Some?
      modifies `content, `journal, `pendingCount, `overflow, `edited, `changed
      ensures Valid() && content == old(content) - {path}
      ensures edited == old(edited) + if path in old(content) then PathIds(files, path) else {}
      ensures changed == old(changed) + if path in old(content) then 1 else 0
      ensures old(overflow) ==> overflow
      ensures overflow && !old(overflow) ==>
                |old(journal)| == MAX_IDS && path in old(content) && !(PathIds(files, path) <= old(journal))
      ensures base.Some? && !overflow ==>
                journal == old(journal) + if path in old(content) then PathIds(files, path) else {}
    {
      hide RowOf, Exact, Covers, PathIds;
      if path !in content {
        assert content == content - {path} && journal + {} == journal;
        return;
      }
      ghost var before := Tables();
      ContentKept(files, content, content - {path}, path);
      content := content - {path};
      changed := changed + 1;
      EditPath(path, before);
    }

    // ---------- Transactions ----------

    method Begin()
      requires Valid() && saved.None?
      modifies `saved, `savedEdited
      ensures Valid() && saved == Some(Tables()) && savedEdited == edited
    {
      saved, savedEdited := Some(Tables()), edited;
    }

    /** A writer may mark the search data changed without a changed row. */
    method MarkChanged()
      requires Valid() && saved.Some?
      modifies `changed
      ensures Valid() && changed == old(changed) + 1
    {
      changed := changed + 1;
    }

    /** A transaction that changed something makes a new revision. */
    method Commit()
      requires Valid() && saved.Some?
      modifies `saved, `revision, `published, `changed
      ensures Valid() && saved == None && changed == 0
      ensures revision == old(revision) + if old(changed) > 0 then 1 else 0
      ensures published == old(published)[revision := AllRows(files, content)]
    {
      hide RowOf, Exact, Covers, AllRows;
      if changed > 0 {
        revision := revision + 1;
        published := published[revision := AllRows(files, content)];
      }
      saved, changed := None, 0;
    }

    /** Rollback restores the journal, its counter and the overflow mark with the rows. */
    method Rollback()
      requires Valid() && saved.Some?
      modifies `files, `content, `journal, `pendingCount, `overflow, `edited, `saved, `changed
      ensures Valid() && saved == None && changed == 0
      ensures Tables() == old(saved.value) && edited == savedEdited
    {
      hide RowOf, Exact, Covers, AllRows;
      var s := saved.value;
      files, content, journal, pendingCount, overflow := s.files, s.content, s.journal, s.pendingCount, s.overflow;
      edited, saved, changed := savedEdited, None, 0;
    }

    // ---------- The cache file ----------

    /** The cache file is replaced by the rows that a reader of some revision saw, which need not be the
      * latest by then. */
    method Publish(version: Version)
      requires Valid() && version.revision <= revision
      modifies `cached
      ensures Valid() && cached == Some(CacheFile(version, published[version.revision]))
    {
      cached := Some(CacheFile(version, published[version.revision]));
    }

    /** The checkpoint that follows a publication takes place unless there is a newer revision. */
    method Checkpoint(version: Version) returns (done: bool)
      requires Valid() && saved.None?
      modifies `journal, `pendingCount, `overflow, `base, `edited
      ensures Valid() && (done <==> version.revision == revision)
      ensures done ==> base == Some(version) && !overflow && journal == {} && edited == {}
      ensures !done ==> base == old(base) && Tables() == old(Tables()) && edited == old(edited)
    {
      hide RowOf;
      if version.revision != revision {
        return false;
      }
      base, overflow, edited := Some(version), false, {};
      DeleteAllChanges();
      CoversAll(files, content);
      done := true;
    }

    // ---------- Reading the changes ----------

    /** The ordered outer join, cut off one row beyond `limit`. A returned delta is
      * never truncated: it has one row for every journaled id. */
    method ReadChanges(limit: nat) returns (changes: Option<Delta>)
      requires Valid()
      ensures changes.Some? <==> 0 < |journal| <= limit
      ensures changes.Some? ==> Lists(changes.value, journal, files, content)
    {
      hide RowOf, Exact, Covers, AllRows;
      var rows: Delta := [];
      var rest := journal;
      while rest != {} && |rows| < limit + 1
        invariant rest <= journal && |rows| + |rest| == |journal| && |rows| <= limit + 1
        invariant forall k, id :: 0 <= k < |rows| && id in rest ==> rows[k].0 < id
        invariant Lists(rows, journal - rest, files, content)
        decreases rest
      {
        var id := Least(rest);
        ListsMore(rows, journal - rest, files, content, id);
        rows := rows + [(id, RowOf(files, content, id))];
        assert journal - (rest - {id}) == journal - rest + {id};
        rest := rest - {id};
      }
      if rows == [] || |rows| > limit {
        return None;
      }
      assert journal - rest == journal;
      changes := Some(rows);
    }

    method Least(ids: set<int>) returns (least: int)
      requires ids != {}
      ensures least in ids && forall id :: id in ids ==> least <= id
    {
      Inhabited(ids);
      least :| least in ids;
      var rest := ids - {least};
      while rest != {}
        invariant rest <= ids && least in ids
        invariant forall id :: id in ids && id !in rest ==> least <= id
        decreases rest
      {
        Inhabited(rest);
        var id :| id in rest;
        if id < least {
          least := id;
        }
        rest := rest - {id};
      }
    }

    /** Recovery: the rows of the cache file, brought up to date by the journal, or nothing. */
    method Recover() returns (rows: Option<Rows>)
      requires Valid() && saved.None?
      ensures rows.Some? ==> rows.value == AllRows(files, content)
      ensures rows.Some? <==> Recoverable(View())
    {
      hide RowOf, Covers, AllRows;
      if base.None? || base.value.revision > revision || overflow {
        return None;
      }
      if cached.None? || cached.value.version != base.value {
        return None;
      }
      if revision == base.value.revision {
        return Some(cached.value.rows);
      }
      var changes := ReadChanges(MAX_IDS);
      if changes.None? {
        return None;
      }
      Replayed(files, content, cached.value.rows, journal, changes.value);
      rows := Some(Apply(cached.value.rows, changes.value));
    }

    // ---------- Runs ----------

    /** The database without its journal. */
    ghost function View(): State
      reads this
    {
      State(
        files, content, edited, revision, changed, base, if cached.Some? then Some(cached.value.version) else None,
        if saved.Some? then Some(SavedState(saved.value.files, saved.value.content, savedEdited)) else None)
    }

    method Edit(op: Op)
      requires Valid() && Allowed(View(), op) && IsEdit(op)
      modifies `files, `content, `journal, `pendingCount, `overflow, `edited, `changed
      ensures Valid() && View() == Step(old(View()), op)
    {
      hide RowOf, Exact, Covers, AllRows, PathIds, Database.Valid, UniquePaths, OnlySeen, Free;
      match op {
        case Insert(id, row) => var _ := InsertFile(id, row);
        case Delete(id) => DeleteFile(id);
        case Update(id, row) => var _ := UpdateFile(id, row);
        case Put(path, value) => PutContent(path, value);
        case Drop(path) => DeleteContent(path);
        case Mark => MarkChanged();
      }
    }

    method Transact(op: Op)
      requires Valid() && Allowed(View(), op) && (op.Begin? || op.Commit? || op.Rollback?)
      modifies this
      ensures Valid() && View() == Step(old(View()), op)
    {
      hide RowOf, Exact, Covers, AllRows, PathIds, Database.Valid, UniquePaths, OnlySeen, Free;
      match op {
        case Begin => Begin();
        case Commit => Commit();
        case Rollback => Rollback();
      }
    }

    method Do(op: Op)
      requires Valid() && Allowed(View(), op)
      modifies this
      ensures Valid() && View() == Step(old(View()), op)
    {
      hide RowOf, Exact, Covers, AllRows, PathIds, Database.Valid, UniquePaths, OnlySeen, Free;
      match op {
        case Publish(version) => Publish(version);
        case Checkpoint(version) => var _ := Checkpoint(version);
        case Begin | Commit | Rollback => Transact(op);
        case _ => Edit(op);
      }
    }

    /** Over every legal run the database does what the one without a journal does. */
    method Perform(ops: seq<Op>)
      requires Valid() && Legal(View(), ops)
      modifies this
      ensures Valid() && View() == Run(old(View()), ops)
    {
      hide Step, Allowed, Database.View, Database.Valid;
      var k := 0;
      while k < |ops|
        invariant k <= |ops| && Valid()
        invariant Legal(View(), ops[k..]) && Run(View(), ops[k..]) == Run(old(View()), ops)
      {
        assert ops[k..][1..] == ops[k + 1..];
        Do(ops[k]);
        k := k + 1;
      }
    }
  }

  /** Recovery after any run: exactly the current rows, or nothing; and nothing exactly when no cache file goes
    * with the last checkpoint, when the journal could not hold the ids edited since by transactions that were
    * not rolled back, or when a later revision edited none. */
  method RecoverAfter(ops: seq<Op>) returns (rows: Option<Rows>)
    requires Legal(Empty, ops) && Run(Empty, ops).saved.None?
    ensures rows.Some? ==> rows.value == AllRows(Run(Empty, ops).files, Run(Empty, ops).content)
    ensures rows.Some? <==> Recoverable(Run(Empty, ops))
  {
    var database := new Database();
    database.Perform(ops);
    rows := database.Recover();
  }

  lemma GrownSet(ids: set<int>, id: int)
    ensures |ids| <= |ids + {id}| <= |ids| + 1
    ensures id in ids ==> ids + {id} == ids
    ensures id !in ids ==> |ids + {id}| == |ids| + 1
  {
    if id in ids {
      assert ids + {id} == ids;
    }
  }

  /** The rows that a reader sees are covered without any edit. */
  lemma CoversAll(files: map<int, FileRow>, content: map<string, Content>)
    ensures Covers(files, content, AllRows(files, content), {})
  {
  }

  /** The same rows are covered by the same ids. */
  lemma CoversSame(before: Snapshot, after: Snapshot, base: Rows, since: set<int>)
    requires Covers(before.files, before.content, base, since)
    requires forall i :: RowOf(after.files, after.content, i) == RowOf(before.files, before.content, i)
    ensures Covers(after.files, after.content, base, since)
  {
  }

  /** A delta that lists exactly `ids`, in order, each with its row. */
  ghost predicate Lists(delta: Delta, ids: set<int>, files: map<int, FileRow>, content: map<string, Content>) {
    && Increasing(delta)
    && (forall k :: 0 <= k < |delta| ==> delta[k].1 == RowOf(files, content, delta[k].0))
    && (forall id :: id in ids <==> exists k :: 0 <= k < |delta| && delta[k].0 == id)
  }

  lemma ListsMore(delta: Delta, ids: set<int>, files: map<int, FileRow>, content: map<string, Content>, id: int)
    requires Lists(delta, ids, files, content) && forall k :: 0 <= k < |delta| ==> delta[k].0 < id
    ensures Lists(delta + [(id, RowOf(files, content, id))], ids + {id}, files, content)
  {
    var more := delta + [(id, RowOf(files, content, id))];
    assert more[|delta|].0 == id;
    assert forall k :: 0 <= k < |delta| ==> more[k] == delta[k];
  }

  /** The base rows with a delta of all edited ids applied are the current rows. */
  lemma Replayed(files: map<int, FileRow>, content: map<string, Content>, base: Rows, since: set<int>, delta: Delta)
    requires Covers(files, content, base, since) && Lists(delta, since, files, content)
    ensures Apply(base, delta) == AllRows(files, content)
  {
    var now := AllRows(files, content);
    forall id ensures Lookup(Apply(base, delta), id) == Lookup(now, id) { ApplyLookup(base, delta, id); }
    SameRows(Apply(base, delta), now);
  }

  /** Editing the row of one id keeps every other row covered. */
  lemma CoversEdit(before: Snapshot, after: Snapshot, base: Rows, since: set<int>, id: int)
    requires Covers(before.files, before.content, base, since)
    requires forall i :: i != id ==>
               RowOf(after.files, after.content, i) == RowOf(before.files, before.content, i)
    ensures Covers(after.files, after.content, base, since + {id})
  {
  }

  lemma RowInserted(files: map<int, FileRow>, content: map<string, Content>, id: int, row: FileRow)
    ensures forall i :: i != id ==> RowOf(files[id := row], content, i) == RowOf(files, content, i)
  {
  }

  /** Paths are unique, so the content that goes with a file is nobody else's. */
  lemma RowDeleted(files: map<int, FileRow>, content: map<string, Content>, id: int)
    requires id in files && UniquePaths(files)
    ensures UniquePaths(files - {id})
    ensures forall i :: i != id ==> RowOf(files - {id}, content - {files[id].path}, i) == RowOf(files, content, i)
  {
  }

  /** Updating one file changes no other row, and not its own if only `seen` differs. */
  lemma RowKept(before: map<int, FileRow>, after: map<int, FileRow>, content: map<string, Content>, id: int)
    requires id in before && id in after && after == before[id := after[id]]
    ensures forall i :: i != id ==> RowOf(after, content, i) == RowOf(before, content, i)
    ensures OnlySeen(before[id], after[id]) ==> RowOf(after, content, id) == RowOf(before, content, id)
  {
  }

  /** Tables that show the same row for every id show the same rows. */
  lemma SameVisible(before: map<int, FileRow>, after: map<int, FileRow>, content: map<string, Content>)
    requires forall id :: RowOf(after, content, id) == RowOf(before, content, id)
    ensures AllRows(after, content) == AllRows(before, content)
  {
    var x, y := AllRows(after, content), AllRows(before, content);
    forall id ensures Lookup(x, id) == Lookup(y, id) {
      assert Lookup(x, id) == RowOf(after, content, id) && Lookup(y, id) == RowOf(before, content, id);
    }
    SameRows(x, y);
  }

  lemma OnePath(files: map<int, FileRow>, path: string, id: int)
    requires UniquePaths(files) && id in PathIds(files, path)
    ensures PathIds(files, path) == {id}
  {
    var ids := PathIds(files, path);
    forall i ensures i in ids <==> i == id { assert i in ids ==> files[i].path == files[id].path; }
  }

  /** Content at one path shows only in the rows with that path. */
  lemma ContentKept(files: map<int, FileRow>, before: map<string, Content>, after: map<string, Content>, path: string)
    requires before - {path} == after - {path}
    ensures forall i :: i !in PathIds(files, path) ==> RowOf(files, after, i) == RowOf(files, before, i)
  {
    assert forall p :: p != path ==> (p in before <==> p in before - {path}) && (p in after <==> p in after - {path});
  }

  lemma SameRows(x: Rows, y: Rows)
    requires forall id :: Lookup(x, id) == Lookup(y, id)
    ensures x == y
  {
    forall id ensures id in x <==> id in y { assert Lookup(x, id) == Lookup(y, id); }
    forall id | id in x ensures x[id] == y[id] { assert Lookup(x, id) == Lookup(y, id); }
  }
}
