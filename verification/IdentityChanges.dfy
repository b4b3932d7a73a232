/** Identities of files across our own namespace operations. An operation changes
    only the status-change time of a file, so an expected identity may be advanced
    along the recorded changes; chains are compressed on every lookup. */
module IdentityChanges {

  datatype Identity = Identity(
    device: int, inode: int, size: int, mode: int,
    modified: int, modifiedNs: int, changed: int, changedNs: int)
  {
    predicate HasSamePayload(other: Identity) {
      device == other.device && inode == other.inode && size == other.size && mode == other.mode
      && modified == other.modified && modifiedNs == other.modifiedNs
    }
  }

  type Changes = map<Identity, Identity>

  /** Following the chain of `x` for `n` changes ends at `e`, which has no further change. */
  ghost predicate EndsAt(m: Changes, x: Identity, e: Identity, n: nat)
    decreases n
  {
    if x in m then n > 0 && EndsAt(m, m[x], e, n - 1) else n == 0 && x == e
  }

  ghost predicate Ends(m: Changes, x: Identity, e: Identity) {
    exists n: nat :: EndsAt(m, x, e, n)
  }

  /** No chain runs forever; on a finite map, there is no cycle. */
  ghost predicate Acyclic(m: Changes) {
    forall x :: x in m ==> exists e :: Ends(m, x, e)
  }

  /** Following `n >= 1` changes from `x` arrives at `y`. */
  ghost predicate Reaches(m: Changes, x: Identity, y: Identity, n: nat)
    decreases n
  {
    x in m && n > 0 && (if n == 1 then m[x] == y else Reaches(m, m[x], y, n - 1))
  }

  ghost predicate LeadsTo(m: Changes, x: Identity, y: Identity) {
    exists n: nat :: Reaches(m, x, y, n)
  }

  ghost predicate PayloadKept(m: Changes) {
    forall x :: x in m ==> x.HasSamePayload(m[x])
  }

  // ---------- Facts about chains ----------

  lemma {:induction false} EndUnique(m: Changes, x: Identity, e: Identity, n: nat, f: Identity, k: nat)
    requires EndsAt(m, x, e, n) && EndsAt(m, x, f, k)
    ensures e == f && n == k
    decreases n
  {
    if x in m { EndUnique(m, m[x], e, n - 1, f, k - 1); }
  }

  lemma EndStep(m: Changes, x: Identity, e: Identity)
    requires x in m
    ensures Ends(m, x, e) <==> Ends(m, m[x], e)
  {
    if Ends(m, m[x], e) {
      var n: nat :| EndsAt(m, m[x], e, n);
      assert EndsAt(m, x, e, n + 1);
    }
    if Ends(m, x, e) {
      var n: nat :| EndsAt(m, x, e, n);
      assert EndsAt(m, m[x], e, n - 1);
    }
  }

  /** A nonempty set of changes closed under following them has no chain end. */
  lemma {:induction false} ClosedNeverEnds(m: Changes, s: set<Identity>, x: Identity, e: Identity, n: nat)
    requires x in s && forall y :: y in s ==> y in m && m[y] in s
    ensures !EndsAt(m, x, e, n)
    decreases n
  {
    if n > 0 { ClosedNeverEnds(m, s, m[x], e, n - 1); }
  }

  /** An identity on a cycle has no chain end. */
  lemma {:induction false} CycleNeverEnds(m: Changes, x: Identity, k: nat, e: Identity, n: nat)
    requires Reaches(m, x, x, k)
    ensures !EndsAt(m, x, e, n)
    decreases n
  {
    if EndsAt(m, x, e, n) {
      var j := ReachEnd(m, x, x, k, e, n);
      EndUnique(m, x, e, n, e, j);
    }
  }

  lemma {:induction false} ReachEnd(m: Changes, x: Identity, y: Identity, k: nat, e: Identity, n: nat) returns (j: nat)
    requires Reaches(m, x, y, k) && EndsAt(m, x, e, n)
    ensures j < n && EndsAt(m, y, e, j)
    decreases k
  {
    if k == 1 {
      j := n - 1;
    } else {
      j := ReachEnd(m, m[x], y, k - 1, e, n - 1);
    }
  }

  // ---------- The compressed map ----------

  /** The map after `current` has walked through `visited` and stopped at `result`. */
  function Compressed(m: Changes, visited: set<Identity>, result: Identity): Changes {
    map x | x in m.Keys + visited && !(x in visited && x == result) :: if x in visited then result else m[x]
  }

  /** `visited` is the walk so far: it leads to `result` and shares its chain end. */
  ghost predicate Walk(m: Changes, visited: set<Identity>, result: Identity) {
    && visited <= m.Keys
    && (forall v :: v in visited ==> m[v] in visited || m[v] == result)
    && (forall v, e :: v in visited ==> (Ends(m, v, e) <==> Ends(m, result, e)))
  }

  lemma WalkStep(m: Changes, visited: set<Identity>, result: Identity)
    requires Walk(m, visited, result) && result in m
    ensures Walk(m, visited + {result}, m[result])
  {
    forall e ensures Ends(m, result, e) <==> Ends(m, m[result], e) { EndStep(m, result, e); }
  }

  /** Where the walk stops, and whether it stopped at a chain end or on a cycle. */
  ghost predicate Stopped(m: Changes, visited: set<Identity>, result: Identity) {
    Walk(m, visited, result) && (result !in m || result in visited)
  }

  /** A chain that ends keeps its end. */
  lemma {:induction false} CompressedEnd(m: Changes, visited: set<Identity>, result: Identity, x: Identity, e: Identity,
    n: nat)
    requires Stopped(m, visited, result) && EndsAt(m, x, e, n)
    ensures Ends(Compressed(m, visited, result), x, e)
    decreases n
  {
    var c := Compressed(m, visited, result);
    if x in visited {
      assert Ends(m, x, e) && Ends(m, result, e);
      if result in visited {
        var k: nat :| EndsAt(m, result, e, k);
        ClosedNeverEnds(m, visited, result, e, k);
      } else {
        var k: nat :| EndsAt(m, result, e, k);
        assert e == result;
        assert EndsAt(c, result, result, 0);
        assert EndsAt(c, x, e, 1);
      }
    } else if x in m {
      CompressedEnd(m, visited, result, m[x], e, n - 1);
      EndStep(c, x, e);
    } else {
      assert EndsAt(c, x, e, 0);
    }
  }

  /** Everything the walk saw now ends at `result` in at most one change. */
  lemma CompressedWalk(m: Changes, visited: set<Identity>, result: Identity, x: Identity)
    requires Stopped(m, visited, result) && x in visited + {result}
    ensures EndsAt(Compressed(m, visited, result), x, result, if x == result then 0 else 1)
  {
    var c := Compressed(m, visited, result);
    assert result !in c;
    assert EndsAt(c, result, result, 0);
  }

  /** The answer of `current` for every identity of an acyclic map is unchanged,
      and the map stays acyclic. */
  lemma CompressedAcyclic(m: Changes, visited: set<Identity>, result: Identity)
    requires Stopped(m, visited, result) && Acyclic(m)
    ensures Acyclic(Compressed(m, visited, result))
    ensures forall x, e :: Ends(m, x, e) <==> Ends(Compressed(m, visited, result), x, e)
  {
    var c := Compressed(m, visited, result);
    forall x, e ensures Ends(m, x, e) <==> Ends(c, x, e) {
      if Ends(m, x, e) {
        var n: nat :| EndsAt(m, x, e, n);
        CompressedEnd(m, visited, result, x, e, n);
      }
      if Ends(c, x, e) {
        var f := EndAnywhere(m, x);
        var n: nat :| EndsAt(m, x, f, n);
        CompressedEnd(m, visited, result, x, f, n);
        var i: nat :| EndsAt(c, x, e, i);
        var j: nat :| EndsAt(c, x, f, j);
        EndUnique(c, x, e, i, f, j);
      }
    }
    forall x | x in c ensures exists e :: Ends(c, x, e) {
      assert x in m;
      var e :| Ends(m, x, e);
    }
  }

  // ---------- The recorder ----------

  class OperationIdentityChanges {
    var changes: Changes

    ghost predicate Valid()
      reads this
    {
      PayloadKept(changes)
    }

    constructor ()
      ensures Valid() && changes == map[]
    {
      changes := map[];
    }

    method Record(before: Identity, after: Identity)
      requires Valid()
      modifies this
      ensures Valid()
      ensures changes ==
                if before != after && before.HasSamePayload(after) then old(changes)[before := after] else old(changes)
    {
      if before == after || !before.HasSamePayload(after) { return; }
      changes := changes[before := after];
    }

    /** Terminates on every map. Where the chain of `identity` ends, the result is
        that end; where it runs into a cycle, the lookup breaks the cycle. In both
        cases the result has the same payload and no further change. */
    method Current(identity: Identity) returns (result: Identity)
      requires Valid()
      modifies this
      ensures Valid()
      ensures identity.HasSamePayload(result) && result !in changes
      ensures forall e :: Ends(old(changes), identity, e) ==> result == e
      ensures forall x, e :: Ends(old(changes), x, e) ==> Ends(changes, x, e)
      ensures Ends(changes, identity, result)
      ensures old(Acyclic(changes)) ==> Ends(old(changes), identity, result) && Acyclic(changes)
      ensures old(Acyclic(changes)) ==> forall x, e :: Ends(old(changes), x, e) <==> Ends(changes, x, e)
    {
      result := identity;
      var visited: set<Identity> := {};
      while result in changes && result !in visited
        invariant changes == old(changes)
        invariant Walk(changes, visited, result)
        invariant identity.HasSamePayload(result) && forall v :: v in visited ==> v.HasSamePayload(result)
        invariant identity in visited || identity == result
        decreases changes.Keys - visited
      {
        WalkStep(changes, visited, result);
        visited, result := visited + {result}, changes[result];
      }
      ghost var m, walked := changes, visited;
      Finished(m, visited, identity, result);
      while visited != {}
        invariant visited <= walked
        invariant changes.Keys == m.Keys - (if result in walked - visited then {result} else {})
        invariant forall x :: x in changes ==> changes[x] == if x in walked - visited then result else m[x]
        decreases visited
      {
        var earlier :| earlier in visited;
        if result == earlier {
          changes := changes - {earlier};
        } else {
          changes := changes[earlier := result];
        }
        visited := visited - {earlier};
      }
      assert changes == Compressed(m, walked, result);
    }
  }

  /** Everything `Current` promises about the compressed map. */
  lemma Finished(m: Changes, visited: set<Identity>, identity: Identity, result: Identity)
    requires Stopped(m, visited, result) && identity in visited + {result}
    ensures var c := Compressed(m, visited, result);
      && result !in c && Ends(c, identity, result)
      && (forall e :: Ends(m, identity, e) ==> result == e)
      && (forall x, e :: Ends(m, x, e) ==> Ends(c, x, e))
      && (Acyclic(m) ==> Ends(m, identity, result) && Acyclic(c) && forall x, e :: Ends(m, x, e) <==> Ends(c, x, e))
  {
    var c := Compressed(m, visited, result);
    CompressedWalk(m, visited, result, identity);
    forall x, e | Ends(m, x, e) ensures Ends(c, x, e) {
      var n: nat :| EndsAt(m, x, e, n);
      CompressedEnd(m, visited, result, x, e, n);
    }
    forall e | Ends(m, identity, e) ensures result == e {
      var i: nat :| EndsAt(c, identity, e, i);
      var j: nat :| EndsAt(c, identity, result, j);
      EndUnique(c, identity, e, i, result, j);
    }
    if Acyclic(m) {
      CompressedAcyclic(m, visited, result);
      if identity !in m { assert EndsAt(m, identity, identity, 0); }
    }
  }

  // ---------- When recording keeps the chains finite ----------

  /** Recording a change keeps an acyclic map acyclic exactly when the new
      identity does not already lead back to the old one. */
  lemma RecordAcyclic(m: Changes, before: Identity, after: Identity)
    requires Acyclic(m) && before != after
    ensures Acyclic(m[before := after]) <==> !LeadsTo(m, after, before)
  {
    var c := m[before := after];
    if LeadsTo(m, after, before) {
      var n: nat :| Reaches(m, after, before, n);
      var k := ReachesUpdated(m, before, after, after, n);
      assert Reaches(c, before, before, k + 1);
      forall e, j: nat ensures !EndsAt(c, before, e, j) { CycleNeverEnds(c, before, k + 1, e, j); }
      assert before in c && !exists e :: Ends(c, before, e);
      assert !Acyclic(c);
    } else {
      forall x | x in c ensures exists e :: Ends(c, x, e) {
        var e := EndAnywhere(m, after);
        UpdatedAway(m, before, after, after, e);
        EndStep(c, before, e);
        if x != before {
          var f :| Ends(m, x, f);
          var n: nat :| EndsAt(m, x, f, n);
          UpdatedThrough(m, before, after, e, x, f, n);
        }
      }
    }
  }

  lemma EndAnywhere(m: Changes, x: Identity) returns (e: Identity)
    requires Acyclic(m)
    ensures Ends(m, x, e)
  {
    if x in m { e :| Ends(m, x, e); } else { e := x; assert EndsAt(m, x, x, 0); }
  }

  /** A path to `before` survives the update, perhaps stopping at an earlier visit. */
  lemma {:induction false} ReachesUpdated(m: Changes, before: Identity, after: Identity, x: Identity, n: nat)
    returns (k: nat)
    requires Reaches(m, x, before, n) && x != before
    ensures Reaches(m[before := after], x, before, k)
    decreases n
  {
    if n == 1 || m[x] == before {
      k := 1;
    } else {
      k := ReachesUpdated(m, before, after, m[x], n - 1);
      k := k + 1;
    }
  }

  /** A chain that never meets `before` is unchanged by the update. */
  lemma UpdatedAway(m: Changes, before: Identity, after: Identity, x: Identity, e: Identity)
    requires Ends(m, x, e) && x != before && !LeadsTo(m, x, before)
    ensures Ends(m[before := after], x, e)
  {
    var n: nat :| EndsAt(m, x, e, n);
    UpdatedAwayAt(m, before, after, x, e, n);
  }

  lemma {:induction false} UpdatedAwayAt(m: Changes, before: Identity, after: Identity, x: Identity, e: Identity,
    n: nat)
    requires EndsAt(m, x, e, n) && x != before && !LeadsTo(m, x, before)
    ensures EndsAt(m[before := after], x, e, n)
    decreases n
  {
    if x in m {
      assert !Reaches(m, x, before, 1);
      if LeadsTo(m, m[x], before) {
        var k: nat :| Reaches(m, m[x], before, k);
        assert Reaches(m, x, before, k + 1);
      }
      UpdatedAwayAt(m, before, after, m[x], e, n - 1);
    }
  }

  /** Any other chain either keeps its end or now runs through `before` to `e`. */
  lemma {:induction false} UpdatedThrough(m: Changes, before: Identity, after: Identity, e: Identity, x: Identity,
    f: Identity, n: nat)
    requires EndsAt(m, x, f, n) && Ends(m[before := after], before, e)
    ensures Ends(m[before := after], x, e) || Ends(m[before := after], x, f)
    decreases n
  {
    var c := m[before := after];
    if x == before {
    } else if x in m {
      UpdatedThrough(m, before, after, e, m[x], f, n - 1);
      EndStep(c, x, e);
      EndStep(c, x, f);
    } else {
      assert EndsAt(c, x, x, 0);
    }
  }
}
