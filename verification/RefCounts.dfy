/** Reference counts of one level of sharing: owners hold handles to shared cells, and the count of a
  * cell is the number of handles to it. */
module RefCounts {

  type Handles = map<nat, seq<nat>>

  /** The places (owner, index) that hold a handle to the cell. */
  ghost function Holders(m: Handles, x: nat): set<(nat, nat)> {
    set o, k | o in m && 0 <= k < |m[o]| && m[o][k] == x :: (o, k)
  }

  ghost predicate Closed(m: Handles, counts: map<nat, nat>) {
    forall o, k :: o in m && 0 <= k < |m[o]| ==> m[o][k] in counts
  }

  /** Every held cell is counted, and every counted cell is held by as many handles as it counts. */
  ghost predicate Exact(m: Handles, counts: map<nat, nat>) {
    && Closed(m, counts)
    && (forall x :: x in counts ==> counts[x] == |Holders(m, x)| > 0)
  }

  function CountOf(counts: map<nat, nat>, x: nat): nat {
    if x in counts then counts[x] else 0
  }

  function Retained(counts: map<nat, nat>, x: nat): map<nat, nat> {
    counts[x := CountOf(counts, x) + 1]
  }

  /** A count that falls to zero frees the cell. */
  function Released(counts: map<nat, nat>, x: nat): map<nat, nat>
    requires x in counts && counts[x] > 0
  {
    if counts[x] == 1 then counts - {x} else counts[x := counts[x] - 1]
  }

  lemma UncountedHasNoHolder(m: Handles, counts: map<nat, nat>, x: nat)
    requires Exact(m, counts)
    ensures CountOf(counts, x) == |Holders(m, x)|
  {
    if x !in counts {
      assert forall h :: h !in Holders(m, x);
      assert Holders(m, x) == {};
    }
  }

  lemma ExactOwner(m: Handles, counts: map<nat, nat>, o: nat)
    requires Exact(m, counts) && o !in m
    ensures Exact(m[o := []], counts)
  {
    forall x ensures Holders(m[o := []], x) == Holders(m, x) {
    }
  }

  predicate Names(m: Handles, h: (nat, nat), x: nat) {
    h.0 in m && h.1 < |m[h.0]| && m[h.0][h.1] == x
  }

  lemma HoldersAre(m: Handles, x: nat)
    ensures forall h :: h in Holders(m, x) <==> Names(m, h, x)
  {
    forall h: (nat, nat) ensures h in Holders(m, x) <==> Names(m, h, x) {
      assert h == (h.0, h.1);
    }
  }

  /** Two handle tables that differ at one handle, which names the cell in the second alone. */
  lemma HolderAdded(m: Handles, n: Handles, h: (nat, nat), x: nat)
    requires forall g :: g != h ==> (Names(n, g, x) <==> Names(m, g, x))
    requires Names(n, h, x) && !Names(m, h, x)
    ensures |Holders(n, x)| == |Holders(m, x)| + 1
  {
    HoldersAre(m, x);
    HoldersAre(n, x);
    assert h !in Holders(m, x);
    assert Holders(n, x) == Holders(m, x) + {h};
  }

  lemma HoldersSame(m: Handles, n: Handles, x: nat)
    requires forall g :: Names(n, g, x) <==> Names(m, g, x)
    ensures Holders(n, x) == Holders(m, x)
  {
    HoldersAre(m, x);
    HoldersAre(n, x);
  }

  lemma AppendCounts(m: Handles, o: nat, x: nat, y: nat)
    requires o in m
    ensures |Holders(m[o := m[o] + [x]], y)| == |Holders(m, y)| + (if y == x then 1 else 0)
  {
    var n := m[o := m[o] + [x]];
    if y == x {
      HolderAdded(m, n, (o, |m[o]|), x);
    } else {
      HoldersSame(m, n, y);
    }
  }

  lemma ExactAppend(m: Handles, counts: map<nat, nat>, o: nat, x: nat)
    requires Exact(m, counts) && o in m
    ensures Exact(m[o := m[o] + [x]], Retained(counts, x))
  {
    var n, after := m[o := m[o] + [x]], Retained(counts, x);
    UncountedHasNoHolder(m, counts, x);
    assert Closed(n, after);
    forall y | y in after ensures after[y] == |Holders(n, y)| > 0 {
      AppendCounts(m, o, x, y);
    }
  }

  lemma PopCounts(m: Handles, o: nat, y: nat)
    requires o in m && m[o] != []
    ensures |Holders(m, y)| == |Holders(m[o := m[o][..|m[o]| - 1]], y)| + (if y == m[o][|m[o]| - 1] then 1 else 0)
  {
    var n := m[o := m[o][..|m[o]| - 1]];
    if y == m[o][|m[o]| - 1] {
      HolderAdded(n, m, (o, |m[o]| - 1), y);
    } else {
      HoldersSame(n, m, y);
    }
  }

  lemma Held(m: Handles, counts: map<nat, nat>, o: nat, k: nat)
    requires Exact(m, counts) && o in m && k < |m[o]|
    ensures m[o][k] in counts && counts[m[o][k]] > 0
  {
  }

  lemma ExactPop(m: Handles, counts: map<nat, nat>, o: nat)
    requires Exact(m, counts) && o in m && m[o] != []
    ensures var x := m[o][|m[o]| - 1];
            x in counts && counts[x] > 0 && Exact(m[o := m[o][..|m[o]| - 1]], Released(counts, x))
  {
    var x := m[o][|m[o]| - 1];
    Held(m, counts, o, |m[o]| - 1);
    var n, after := m[o := m[o][..|m[o]| - 1]], Released(counts, x);
    forall y | y in after ensures after[y] == |Holders(n, y)| > 0 {
      PopCounts(m, o, y);
    }
    PopCounts(m, o, x);
    forall p, j | p in n && 0 <= j < |n[p]| ensures n[p][j] in after {
      assert n[p][j] == m[p][j];
      if n[p][j] == x {
        HoldersAre(n, x);
        assert Names(n, (p, j), x);
        assert (p, j) in Holders(n, x);
      }
    }
  }

  lemma ExactRemove(m: Handles, counts: map<nat, nat>, o: nat)
    requires Exact(m, counts) && o in m && m[o] == []
    ensures Exact(m - {o}, counts)
  {
    forall x ensures Holders(m - {o}, x) == Holders(m, x) {
    }
  }

  function Put(handles: seq<nat>, k: nat, x: nat): seq<nat>
    requires k < |handles|
  {
    handles[k := x]
  }

  lemma ReplaceCounts(m: Handles, o: nat, k: nat, x: nat, z: nat)
    requires o in m && k < |m[o]|
    ensures |Holders(m[o := Put(m[o], k, x)], z)| + (if z == m[o][k] then 1 else 0)
         == |Holders(m, z)| + (if z == x then 1 else 0)
  {
    var n := m[o := Put(m[o], k, x)];
    if x == m[o][k] || (z != x && z != m[o][k]) {
      HoldersSame(m, n, z);
    } else if z == x {
      HolderAdded(m, n, (o, k), z);
    } else {
      HolderAdded(n, m, (o, k), z);
    }
  }

  /** A handle that is replaced releases the cell it named and retains the one it names now. */
  lemma ExactReplace(m: Handles, counts: map<nat, nat>, o: nat, k: nat, x: nat)
    requires Exact(m, counts) && o in m && k < |m[o]|
    ensures var y := m[o][k];
            && y in Retained(counts, x) && Retained(counts, x)[y] > 0
            && Exact(m[o := Put(m[o], k, x)], Released(Retained(counts, x), y))
  {
    var y := m[o][k];
    Held(m, counts, o, k);
    UncountedHasNoHolder(m, counts, x);
    var n, after := m[o := Put(m[o], k, x)], Released(Retained(counts, x), y);
    forall z ensures CountOf(after, z) == |Holders(n, z)| {
      UncountedHasNoHolder(m, counts, z);
      ReplaceCounts(m, o, k, x, z);
    }
    forall p, j | p in n && 0 <= j < |n[p]| ensures n[p][j] in after {
      HoldersAre(n, n[p][j]);
      assert Names(n, (p, j), n[p][j]);
      assert (p, j) in Holders(n, n[p][j]);
    }
  }

  /** A cell whose count is one is named by one handle only. */
  lemma OnlyHolder(m: Handles, counts: map<nat, nat>, o: nat, k: nat, p: nat, j: nat)
    requires Exact(m, counts) && o in m && k < |m[o]| && p in m && j < |m[p]|
    requires m[o][k] == m[p][j] && counts[m[o][k]] == 1
    ensures o == p && k == j
  {
    var holders := Holders(m, m[o][k]);
    assert (o, k) in holders && (p, j) in holders;
    var rest := holders - {(o, k)};
    assert |rest| == 0;
  }
}
