/** Renaming, moving, copying and trashing one reviewed object. The object is captured into
    private staging before it is checked, published with exclusive renames, and
    restored or listed for recovery on failure. Other processes may change the
    public directories between any two steps; any system call may fail. */
module FileTransfer {
  import opened Common
  import opened IdentityChanges
  import T = TreeCopy

  datatype Location = Location(directory: int, name: string)

  /** What the copying of a tree made. */
  datatype Copied = Copied(of: Identity, nodes: map<T.Path, T.Node>)

  /** A file or a whole tree. A finished copy carries what it was made from and what was made; a partial
    * copy or a partly removed tree is a copy of nothing. */
  datatype Object = Object(identity: Identity, copy: Option<Copied>)

  /** Where an object can be left: our two private names, and the Trash. */
  datatype Slot = Capture | Output | Bin

  datatype Action = Copy | Move | Trash

  /** One of our own exclusive renames into a public directory. */
  datatype Placement = Placement(at: Location, item: Object)

  datatype Result = Success | Failure(recovery: seq<Slot>)

  /** A rename changes only the status-change time. */
  predicate SameObject(a: Object, b: Object) {
    a.identity.HasSamePayload(b.identity) && a.copy == b.copy
  }

  class FileSystem {
    var shared: map<Location, Object>  // public names
    var staging: map<Slot, Object>     // private names
    ghost var log: seq<Placement>
    ghost var captures: seq<Object>  // what we have taken out of public directories, in order
    ghost var trashed: seq<Object>   // what we have put into the Trash, in order

    constructor ()
    {
      shared, staging, log, captures, trashed := map[], map[], [], [], [];
    }

    /** Other processes rearrange the public directories at will. */
    method Interfere()
      modifies this`shared
    {
      shared := *;
    }

    /** What the object becomes when a rename updates its status-change time. */
    method Restamp(item: Object) returns (renamed: Object)
      ensures SameObject(renamed, item)
    {
      var changed: int, changedNs: int := *, *;
      renamed := item.(identity := item.identity.(changed := changed, changedNs := changedNs));
    }

    /** Exclusive rename of a public name into staging. */
    method RenameIn(source: Location, slot: Slot) returns (ok: bool)
      modifies this`shared, this`staging, this`captures
      ensures !ok ==> captures == old(captures)
      ensures ok ==> (
        source in old(shared) && slot !in old(staging) && shared == old(shared) - {source}
        && captures == old(captures) + [old(shared)[source]]
        && staging.Keys == old(staging).Keys + {slot} && staging - {slot} == old(staging)
        && SameObject(staging[slot], old(shared)[source]))
      ensures !ok ==> shared == old(shared) && staging == old(staging)
    {
      if source !in shared || slot in staging {
        return false;
      }
      if * {
        return false;
      }
      var item := Restamp(shared[source]);
      captures := captures + [shared[source]];
      shared, staging := shared - {source}, staging[slot := item];
      ok := true;
    }

    /** Exclusive rename out of staging: it never replaces an existing name. */
    method RenameOut(slot: Slot, target: Location) returns (ok: bool)
      modifies this`shared, this`staging, this`log
      ensures ok ==> (
        slot in old(staging) && target !in old(shared)
        && staging == old(staging) - {slot}
        && target in shared && SameObject(shared[target], old(staging)[slot])
        && shared == old(shared)[target := shared[target]]
        && log == old(log) + [Placement(target, shared[target])])
      ensures !ok ==> shared == old(shared) && staging == old(staging) && log == old(log)
    {
      if slot !in staging || target in shared { return false; }
      if * { return false; }
      var item := Restamp(staging[slot]);
      shared, staging := shared[target := item], staging - {slot};
      log := log + [Placement(target, item)];
      ok := true;
    }

    /** The native Trash takes the captured object under a name of its own, or fails and leaves it. */
    method TrashItem() returns (ok: bool)
      requires Capture in staging
      modifies this`staging, this`trashed
      ensures ok ==>
                && staging == old(staging) - {Capture} && |trashed| == |old(trashed)| + 1 && old(trashed) <= trashed
                && SameObject(trashed[|old(trashed)|], old(staging)[Capture])
      ensures !ok ==> staging == old(staging) && trashed == old(trashed)
    {
      if * {
        return false;
      }
      var item := Restamp(staging[Capture]);
      trashed := trashed + [item];
      staging := staging - {Capture};
      ok := true;
    }

    /** Copying the tree that the pinned handle opens into staging, which on failure may leave a partial copy
      * behind. The pinned object is compared with `expected` before and after. */
    method CopyIn(pinned: Identity, expected: Identity, tree: T.Tree) returns (ok: bool)
      requires Output !in staging && T.DistinctNames(tree) && T.Inodes(tree)
      modifies this`staging
      ensures staging - {Output} == old(staging)
      ensures Capture in staging <==> Capture in old(staging)
      ensures Capture in staging ==> staging[Capture] == old(staging)[Capture]
      ensures ok ==> pinned == expected && Output in staging && CompleteCopy(staging[Output], expected, tree)
      ensures Output in staging && !ok ==> staging[Output].copy == None
    {
      ok := false;
      if pinned != expected {
        return;
      }
      var identity: Identity := *;
      var done, nodes := T.CopyTree(tree);
      var interrupted: bool, begun: bool := *, *;
      if !done || interrupted {
        if begun {
          staging := staging[Output := Object(identity, None)];
        }
        return;
      }
      staging := staging[Output := Object(identity, Some(Copied(expected, nodes)))];
      ok := true;
    }

    /** Recursive removal, which on failure may leave part of a tree behind. */
    method Remove(slot: Slot) returns (ok: bool)
      requires slot in staging
      modifies this`staging
      ensures staging - {slot} == old(staging) - {slot}
      ensures ok <==> slot !in staging
    {
      ok := false;
      if * {
        return;
      }
      var identity: Identity := *;
      if * {
        staging := staging[slot := Object(identity, None)];
        return;
      }
      staging := staging - {slot};
      ok := true;
    }

    /** A finished copy of the object with this identity: all names and contents of its tree, and two files
      * that share an inode where the tree's do, and only there. */
    ghost predicate CompleteCopy(item: Object, of: Identity, tree: T.Tree) {
      item.copy.Some? && item.copy.value.of == of && T.CompleteCopy(tree, item.copy.value.nodes)
    }

    /** The object put at `target` is the reviewed one, or a complete copy of its tree. */
    ghost predicate Delivers(p: Placement, target: Location, expected: Identity, tree: T.Tree) {
      && p.at == target
      && (expected.HasSamePayload(p.item.identity)
          || exists of: Identity :: expected.HasSamePayload(of) && CompleteCopy(p.item, of, tree))
    }

    /** Where the captured object is after a failure: at a listed recovery path, back at its source name,
      * delivered at the target, or in the Trash. */
    ghost predicate Recoverable(
      captured: Object, source: Location, target: Option<Location>, tree: T.Tree, recovery: seq<Slot>, since: int,
      thrown: int)
      reads this
    {
      || (Capture in staging && Capture in recovery && SameObject(staging[Capture], captured))
      || (source in shared && SameObject(shared[source], captured)
          && log != [] && log[|log| - 1] == Placement(source, shared[source]))
      || (target.Some? && 0 <= since < |log| && Delivers(log[since], target.value, captured.identity, tree))
      || (0 <= thrown < |trashed| && SameObject(trashed[thrown], captured))
    }

    /** Take the object into private staging and check what was taken. */
    method TakeIn(source: Location, expected: Identity)
      returns (ok: bool, captured: bool, ghost item: Option<Object>)
      requires staging == map[]
      modifies this`shared, this`staging, this`captures
      ensures captures == old(captures) + if item.Some? then [item.value] else []
      ensures (captured <==> item.Some?) && (ok ==> captured)
      ensures staging.Keys == if captured then {Capture} else {}
      ensures captured ==> SameObject(staging[Capture], item.value)
      ensures ok ==> staging[Capture].identity.HasSamePayload(expected)
    {
      ok, item := false, None;
      Interfere();
      ghost var found := if source in shared then Some(shared[source]) else None;
      captured := RenameIn(source, Capture);
      if !captured {
        return;
      }
      item := found;
      assert staging == map[Capture := staging[Capture]];
      if * {
        return;  // the captured identity cannot be read
      }
      if !staging[Capture].identity.HasSamePayload(expected) {
        return;
      }
      ok := *;   // unless cancelled
    }

    /** The Trash takes the captured object. */
    method ThrowAway(located: bool) returns (ok: bool, gone: bool)
      requires staging.Keys == {Capture}
      modifies this`staging, this`trashed
      ensures gone ==> staging == map[] && |trashed| == |old(trashed)| + 1 && old(trashed) <= trashed
      ensures gone ==> SameObject(trashed[|old(trashed)|], old(staging)[Capture])
      ensures !gone ==> staging == old(staging) && trashed == old(trashed)
      ensures ok ==> gone && located
    {
      ok := false;
      gone := TrashItem();
      if !gone {
        return;
      }
      assert staging == map[];
      if * {
        return;  // the trashed identity cannot be read
      }
      if !located {
        return;
      }
      ok := *;   // unless another object is found there, or no lasting access to it can be had
    }

    /** Publish the captured object itself on the same device. */
    method Publish(target: Location) returns (ok: bool, published: bool)
      requires staging.Keys == {Capture}
      modifies this`shared, this`staging, this`log
      ensures published ==> staging == map[] && |log| == |old(log)| + 1 && old(log) <= log
      ensures published ==> log[|old(log)|].at == target && SameObject(log[|old(log)|].item, old(staging)[Capture])
      ensures !published ==> staging == old(staging) && log == old(log)
      ensures ok ==> published
    {
      Interfere();
      published := RenameOut(Capture, target);
      ok := *;   // unless the published identity cannot be read
      ok := ok && published;
      if published {
        assert staging == map[];
      }
    }

    /** Copy, publish the copy, and remove the captured original, if there is one. */
    method CopyOut(
      captured: bool, pinned: Identity, expected: Identity, tree: T.Tree, target: Location)
      returns (ok: bool, kept: bool)
      requires expected.HasSamePayload(pinned) && T.DistinctNames(tree) && T.Inodes(tree)
      requires staging.Keys == if captured then {Capture} else {}
      modifies this`shared, this`staging, this`log
      ensures old(log) <= log && |log| <= |old(log)| + 1 && Bin !in staging
      ensures kept <==> Capture in staging
      ensures kept ==> captured
      ensures |log| > |old(log)| ==> Delivers(log[|old(log)|], target, expected, tree)
      ensures |log| == |old(log)| ==> kept == captured && (kept ==> staging[Capture] == old(staging)[Capture])
      ensures ok ==> |log| == |old(log)| + 1 && staging == map[]
    {
      ok, kept := false, captured;
      var copied := CopyIn(pinned, pinned, tree);
      assert staging.Keys <= {Capture, Output} by {
        assert forall slot :: slot in staging && slot != Output ==> slot in staging - {Output};
      }
      if !copied {
        return;
      }
      if * {
        return;  // cancelled, or the output cannot be pinned
      }
      Interfere();
      var published := RenameOut(Output, target);
      if !published {
        return;
      }
      assert CompleteCopy(log[|log| - 1].item, pinned, tree) && expected.HasSamePayload(pinned);
      if captured {
        assert staging.Keys == {Capture};
        var removed := Remove(Capture);
        assert staging.Keys <= {Capture} by {
          assert forall slot :: slot in staging && slot != Capture ==> slot in staging - {Capture};
        }
        if !removed {
          return;
        }
        kept := false;
      }
      assert staging == map[];
      ok := *;   // unless the identity of the output cannot be read
    }

    /** The transfer up to its success or its first error. `located` is whether the Trash tells where it put
      * the object. */
    method Attempt(
      action: Action, source: Location, pinned: Identity, expected: Identity, tree: T.Tree, target: Option<Location>,
      sourceWorkspace: bool, targetWorkspace: bool, sameDevice: bool, located: bool)
      returns (ok: bool, captured: bool, gone: bool, ghost item: Option<Object>)
      requires staging == map[] && pinned.HasSamePayload(expected) && T.DistinctNames(tree) && T.Inodes(tree)
      modifies this
      ensures captures == old(captures) + if item.Some? then [item.value] else []
      ensures (captured <==> Capture in staging) && (captured ==> item.Some?) && Bin !in staging
      ensures old(log) <= log && |log| <= |old(log)| + 1
      ensures old(trashed) <= trashed && |trashed| == |old(trashed)| + if gone then 1 else 0
      ensures gone ==> action == Trash && item.Some? && SameObject(trashed[|old(trashed)|], item.value)
      ensures action == Trash ==> log == old(log)
      ensures action == Copy ==> item == None
      ensures ok ==> staging == map[]
      ensures ok && action != Trash ==>
                target.Some? && |log| == |old(log)| + 1 && Delivers(log[|old(log)|], target.value, expected, tree)
      ensures ok && action == Trash ==>
                gone && located && trashed[|old(trashed)|].identity.HasSamePayload(expected)
      ensures item.Some? && |log| == |old(log)| && !gone ==> captured && SameObject(staging[Capture], item.value)
      ensures item.Some? && |log| > |old(log)| ==>
                target.Some? && Delivers(log[|old(log)|], target.value, item.value.identity, tree)
    {
      hide Delivers, T.DistinctNames, T.Inodes;
      ok, captured, gone, item := false, false, false, None;
      if * {
        return;  // cancelled
      }
      if action != Copy {
        if !sourceWorkspace {
          return;
        }
        var taken;
        taken, captured, item := TakeIn(source, expected);
        if !taken {
          return;
        }
      }
      if action == Trash {
        ok, gone := ThrowAway(located);
        captured := !gone;
        return;
      }
      if target.None? {
        return;
      }
      if action != Copy && sameDevice {
        var published;
        ok, published := Publish(target.value);
        captured := !published;
        if published {
          Moved(log[|old(log)|], target.value, expected, tree);
          Moved(log[|old(log)|], target.value, item.value.identity, tree);
        }
        return;
      }
      if !targetWorkspace || (action == Copy && pinned != expected) {
        return;
      }
      ok, captured := CopyOut(captured, pinned, expected, tree, target.value);
      if |log| > |old(log)| && item.Some? {
        SamePayloadDelivers(log[|old(log)|], target.value, expected, item.value.identity, tree);
      }
    }

    lemma Moved(p: Placement, target: Location, expected: Identity, tree: T.Tree)
      requires p.at == target && expected.HasSamePayload(p.item.identity)
      ensures Delivers(p, target, expected, tree)
    {
    }

    lemma SamePayloadDelivers(p: Placement, target: Location, a: Identity, b: Identity, tree: T.Tree)
      requires Delivers(p, target, a, tree) && b.HasSamePayload(a)
      ensures Delivers(p, target, b, tree)
    {
      if !a.HasSamePayload(p.item.identity) {
        var of: Identity :| a.HasSamePayload(of) && CompleteCopy(p.item, of, tree);
        assert b.HasSamePayload(of);
      }
    }

    /** One transfer. Success leaves the reviewed object, or a complete copy of it, at the target or in the
      * Trash. At most one object is captured, and a failure never loses it: it lists what it leaves in staging,
      * except for an output whose existence it cannot read, and the Trash when that told where the object is. */
    method Perform(
      action: Action, source: Location, pinned: Identity, expected: Identity, tree: T.Tree, target: Option<Location>,
      sourceWorkspace: bool, targetWorkspace: bool, sameDevice: bool, located: bool, readable: bool)
      returns (result: Result, ghost item: Option<Object>)
      requires staging == map[] && pinned.HasSamePayload(expected) && T.DistinctNames(tree) && T.Inodes(tree)
      modifies this
      ensures captures == old(captures) + if item.Some? then [item.value] else []
      ensures old(trashed) <= trashed && (action != Trash ==> trashed == old(trashed))
      ensures result.Success? && action != Trash ==>
                && target.Some? && |log| == |old(log)| + 1 && old(log) <= log && staging == map[]
                && Delivers(log[|old(log)|], target.value, expected, tree)
      ensures result.Success? && action == Trash ==>
                && log == old(log) && |trashed| == |old(trashed)| + 1 && staging == map[]
                && trashed[|old(trashed)|].identity.HasSamePayload(expected)
      ensures result.Failure? && item.Some? ==>
                Recoverable(item.value, source, target, tree, result.recovery, |old(log)|, |old(trashed)|)
      ensures result.Failure? ==>
                forall slot :: slot in result.recovery <==>
                  if slot == Bin then located && |trashed| > |old(trashed)|
                  else slot in staging && (slot == Output ==> readable)
      ensures action == Copy ==> item == None
    {
      var ok, captured, gone;
      ok, captured, gone, item :=
        Attempt(action, source, pinned, expected, tree, target, sourceWorkspace, targetWorkspace, sameDevice, located);
      if ok {
        return Success, item;
      }
      var recovery := [];
      Interfere();
      if captured {
        var restored := RenameOut(Capture, source);
        if !restored {
          recovery := recovery + [Capture];
        }
      }
      if Output in staging && readable {
        recovery := recovery + [Output];
      }
      if gone && located {
        recovery := recovery + [Bin];
      }
      result := Failure(recovery);
    }
  }
}
