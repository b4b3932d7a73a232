/** The byte-budgeted cache of query products: eight LRU shards that share one
    ledger. The shards are shown to be one global LRU list cut up by hash, and the
    ledger to charge exactly what that list holds. */
module DerivedCache {
  import opened Common

  const SHARDS := 8
  const MAX_ENTRIES := 512

  datatype Key = PageKey(text: string) | MatchesKey(text: string) | OrderKey(order: int) | HierarchyKey

  datatype OwnedKey = OwnedKey(owner: nat, key: Key)

  /** A shared product; the number stands for the allocation it points to. */
  datatype Product = Page(at: int) | Matches(at: int) | Order(at: int) | Hierarchy(at: int)

  type Identity = (nat, nat)

  datatype Allocation = Allocation(identity: Identity, bytes: nat)

  datatype Entry = Entry(product: Product, allocations: seq<Allocation>, overhead: nat, touched: nat)

  datatype Item = Item(key: OwnedKey, entry: Entry)

  predicate SameKind(key: Key, product: Product) {
    match key
    case PageKey(_) => product.Page?
    case MatchesKey(_) => product.Matches?
    case OrderKey(_) => product.Order?
    case HierarchyKey => product.Hierarchy?
  }

  // ---------- Insertion-ordered lists of items ----------

  function Find(items: seq<Item>, key: OwnedKey): Option<Entry> {
    if items == [] then None
    else if items[0].key == key then Some(items[0].entry)
    else Find(items[1..], key)
  }

  function RemoveKey(items: seq<Item>, key: OwnedKey): seq<Item> {
    if items == [] then []
    else if items[0].key == key then RemoveKey(items[1..], key)
    else [items[0]] + RemoveKey(items[1..], key)
  }

  /** The part of a list that one shard holds. */
  function Part(items: seq<Item>, hash: OwnedKey -> nat, shard: nat): seq<Item> {
    if items == [] then []
    else if hash(items[0].key) % SHARDS == shard then [items[0]] + Part(items[1..], hash, shard)
    else Part(items[1..], hash, shard)
  }

  ghost predicate Distinct(items: seq<Item>) {
    forall i, j :: 0 <= i < j < |items| ==> items[i].key != items[j].key
  }

  ghost predicate Recent(items: seq<Item>, clock: nat) {
    && (forall i, j :: 0 <= i < j < |items| ==> items[i].entry.touched < items[j].entry.touched)
    && (forall i :: 0 <= i < |items| ==> items[i].entry.touched < clock)
  }

  lemma {:induction false} RemoveKeyMembers(items: seq<Item>, key: OwnedKey)
    ensures forall x :: x in RemoveKey(items, key) <==> x in items && x.key != key
  {
    if items != [] { RemoveKeyMembers(items[1..], key); }
  }

  lemma {:induction false} RemoveKeyOrdered(items: seq<Item>, key: OwnedKey, clock: nat)
    requires Distinct(items) && Recent(items, clock)
    ensures Distinct(RemoveKey(items, key)) && Recent(RemoveKey(items, key), clock)
  {
    if items != [] {
      RemoveKeyOrdered(items[1..], key, clock);
      RemoveKeyMembers(items[1..], key);
    }
  }

  lemma {:induction false} FindMember(items: seq<Item>, key: OwnedKey)
    ensures Find(items, key).Some? ==> Item(key, Find(items, key).value) in items
    ensures Find(items, key).None? ==> RemoveKey(items, key) == items && forall x :: x in items ==> x.key != key
  {
    if items != [] { FindMember(items[1..], key); }
  }

  lemma {:induction false} FindDistinct(items: seq<Item>, x: Item)
    requires Distinct(items) && x in items
    ensures Find(items, x.key) == Some(x.entry)
  {
    if items[0] != x {
      FindDistinct(items[1..], x);
    }
  }

  lemma {:induction false} PartRemove(items: seq<Item>, hash: OwnedKey -> nat, shard: nat, key: OwnedKey)
    ensures Part(RemoveKey(items, key), hash, shard) == RemoveKey(Part(items, hash, shard), key)
    ensures hash(key) % SHARDS != shard ==> Part(RemoveKey(items, key), hash, shard) == Part(items, hash, shard)
    ensures hash(key) % SHARDS == shard ==> Find(Part(items, hash, shard), key) == Find(items, key)
  {
    if items != [] { PartRemove(items[1..], hash, shard, key); }
  }

  lemma {:induction false} PartAppend(items: seq<Item>, hash: OwnedKey -> nat, shard: nat, x: Item)
    ensures Part(items + [x], hash, shard)
         == Part(items, hash, shard) + (if hash(x.key) % SHARDS == shard then [x] else [])
  {
    if items != [] {
      assert (items + [x])[1..] == items[1..] + [x];
      PartAppend(items[1..], hash, shard, x);
    }
  }

  lemma {:induction false} PartMembers(items: seq<Item>, hash: OwnedKey -> nat, shard: nat)
    ensures forall x :: x in Part(items, hash, shard) <==> x in items && hash(x.key) % SHARDS == shard
  {
    if items != [] { PartMembers(items[1..], hash, shard); }
  }

  lemma {:induction false} PartDistinct(items: seq<Item>, hash: OwnedKey -> nat, shard: nat)
    requires Distinct(items)
    ensures Distinct(Part(items, hash, shard))
  {
    if items != [] {
      PartDistinct(items[1..], hash, shard);
      PartMembers(items[1..], hash, shard);
    }
  }

  // ---------- What a list is charged ----------

  function Occurrences(allocations: seq<Allocation>, id: Identity): nat {
    if allocations == [] then 0
    else
      Occurrences(allocations[..|allocations| - 1], id)
      + (if allocations[|allocations| - 1].identity == id then 1 else 0)
  }

  function References(items: seq<Item>, id: Identity): nat {
    if items == [] then 0 else Occurrences(items[0].entry.allocations, id) + References(items[1..], id)
  }

  function Overheads(items: seq<Item>): nat {
    if items == [] then 0 else items[0].entry.overhead + Overheads(items[1..])
  }

  function SumBytes(allocations: seq<Allocation>): nat {
    if allocations == [] then 0 else allocations[0].bytes + SumBytes(allocations[1..])
  }

  ghost function SumSizes(m: map<Identity, nat>): nat
    decreases |m|
  {
    if m == map[] then 0
    else
      var k :| k in m;
      assert (m - {k}).Keys == m.Keys - {k};
      m[k] + SumSizes(m - {k})
  }

  lemma {:induction false} SumSizesOf(m: map<Identity, nat>, k: Identity)
    requires k in m
    ensures SumSizes(m) == m[k] + SumSizes(m - {k})
    decreases |m|
  {
    var j :| j in m && SumSizes(m) == m[j] + SumSizes(m - {j});
    if j != k {
      assert (m - {j}).Keys == m.Keys - {j} && (m - {k}).Keys == m.Keys - {k};
      SumSizesOf(m - {j}, k);
      SumSizesOf(m - {k}, j);
      assert m - {j} - {k} == m - {k} - {j};
    }
  }

  lemma SumSizesAdd(m: map<Identity, nat>, k: Identity, bytes: nat)
    requires k !in m
    ensures SumSizes(m[k := bytes]) == SumSizes(m) + bytes
  {
    SumSizesOf(m[k := bytes], k);
    assert m[k := bytes] - {k} == m;
  }

  lemma {:induction false} OccurrencesPrefix(allocations: seq<Allocation>, n: nat, id: Identity)
    requires n <= |allocations|
    ensures Occurrences(allocations[..n], id) <= Occurrences(allocations, id)
    ensures n < |allocations| && allocations[n].identity == id ==>
              Occurrences(allocations[..n], id) < Occurrences(allocations, id)
    decreases |allocations|
  {
    if n < |allocations| {
      var shorter := allocations[..|allocations| - 1];
      OccurrencesPrefix(shorter, n, id);
      assert shorter[..n] == allocations[..n];
    } else {
      assert allocations[..n] == allocations;
    }
  }

  /** Taking one entry out of a list takes out exactly its own references, overhead and place. */
  lemma {:induction false} ChargeRemove(items: seq<Item>, key: OwnedKey, id: Identity)
    requires Distinct(items) && Find(items, key).Some?
    ensures References(items, id) ==
              References(RemoveKey(items, key), id) + Occurrences(Find(items, key).value.allocations, id)
    ensures Overheads(items) == Overheads(RemoveKey(items, key)) + Find(items, key).value.overhead
    ensures |items| == |RemoveKey(items, key)| + 1
  {
    if items[0].key == key {
      if Find(items[1..], key).Some? {
        FindMember(items[1..], key);
      }
      FindMember(items[1..], key);
    } else {
      ChargeRemove(items[1..], key, id);
    }
  }

  lemma {:induction false} ChargeAppend(items: seq<Item>, x: Item, id: Identity)
    ensures References(items + [x], id) == References(items, id) + Occurrences(x.entry.allocations, id)
    ensures Overheads(items + [x]) == Overheads(items) + x.entry.overhead
  {
    if items != [] {
      assert (items + [x])[1..] == items[1..] + [x];
      ChargeAppend(items[1..], x, id);
    }
  }

  /** The sizes on record once `allocations` are added: the first size seen for an
      allocation stays. */
  function AddSizes(sizes: map<Identity, nat>, allocations: seq<Allocation>): map<Identity, nat> {
    if allocations == [] then sizes
    else AddSize(AddSizes(sizes, allocations[..|allocations| - 1]), allocations[|allocations| - 1])
  }

  function AddSize(sizes: map<Identity, nat>, a: Allocation): map<Identity, nat> {
    if a.identity in sizes then sizes else sizes[a.identity := a.bytes]
  }

  function KeepSizes(sizes: map<Identity, nat>, items: seq<Item>): map<Identity, nat> {
    map id | id in sizes && References(items, id) > 0 :: sizes[id]
  }

  // ---------- The ledger ----------

  function RefCount(allocations: map<Identity, (nat, nat)>, id: Identity): nat {
    if id in allocations then allocations[id].1 else 0
  }

  class Ledger {
    var allocations: map<Identity, (nat, nat)>
    var bytes: nat
    var entries: nat

    constructor ()
      ensures allocations == map[] && bytes == 0 && entries == 0
      ensures Balanced([])
    {
      allocations, bytes, entries := map[], 0, 0;
    }

    ghost function Sizes(): map<Identity, nat>
      reads this
    {
      map id | id in allocations :: allocations[id].0
    }

    /** The ledger charges each allocation of `items` once, with an exact reference count. */
    ghost predicate Balanced(items: seq<Item>)
      reads this
    {
      && (forall id :: RefCount(allocations, id) == References(items, id))
      && Positive()
      && bytes == SumSizes(Sizes()) + Overheads(items)
      && entries == |items|
    }

    method Reset()
      modifies this
      ensures Balanced([]) && bytes == 0 && entries == 0
    {
      allocations, bytes, entries := map[], 0, 0;
      assert Sizes() == map[];
    }

    ghost predicate Positive()
      reads this
    {
      forall id :: id in allocations ==> allocations[id].1 > 0
    }

    method AddOne(a: Allocation)
      requires Positive()
      modifies this`allocations, this`bytes
      ensures Positive()
      ensures forall id :: RefCount(allocations, id) ==
                RefCount(old(allocations), id) + (if id == a.identity then 1 else 0)
      ensures Sizes() == AddSize(old(Sizes()), a)
      ensures bytes + SumSizes(old(Sizes())) == old(bytes) + SumSizes(Sizes())
    {
      ghost var before := Sizes();
      if a.identity in allocations {
        allocations := allocations[a.identity := (allocations[a.identity].0, allocations[a.identity].1 + 1)];
        assert Sizes() == before;
      } else {
        SumSizesAdd(before, a.identity, a.bytes);
        allocations := allocations[a.identity := (a.bytes, 1)];
        bytes := bytes + a.bytes;
        assert Sizes() == before[a.identity := a.bytes];
      }
    }

    method Add(entry: Entry, ghost items: seq<Item>, ghost key: OwnedKey)
      requires Balanced(items)
      modifies this
      ensures Balanced(items + [Item(key, entry)])
      ensures Sizes() == AddSizes(old(Sizes()), entry.allocations)
    {
      ghost var x := Item(key, entry);
      forall id
        ensures References(items + [x], id) == References(items, id) + Occurrences(entry.allocations, id)
      {
        ChargeAppend(items, x, id);
      }
      ChargeAppend(items, x, (0, 0));
      var i := 0;
      while i < |entry.allocations|
        invariant i <= |entry.allocations|
        invariant forall id :: RefCount(allocations, id) ==
                    References(items, id) + Occurrences(entry.allocations[..i], id)
        invariant Positive()
        invariant bytes == SumSizes(Sizes()) + Overheads(items)
        invariant entries == old(entries)
        invariant Sizes() == AddSizes(old(Sizes()), entry.allocations[..i])
      {
        assert entry.allocations[..i + 1][..i] == entry.allocations[..i];
        AddOne(entry.allocations[i]);
        i := i + 1;
      }
      assert entry.allocations[..i] == entry.allocations;
      bytes := bytes + entry.overhead;
      entries := entries + 1;
    }

    method RemoveOne(id: Identity)
      requires Positive() && id in allocations && SumSizes(Sizes()) <= bytes
      modifies this`allocations, this`bytes
      ensures Positive()
      ensures forall j :: RefCount(allocations, j) + (if j == id then 1 else 0) == RefCount(old(allocations), j)
      ensures forall j :: j in allocations ==> j in old(allocations) && allocations[j].0 == old(allocations)[j].0
      ensures bytes + old(SumSizes(Sizes())) == old(bytes) + SumSizes(Sizes())
    {
      ghost var before := Sizes();
      var (size, count) := allocations[id];
      if count == 1 {
        SumSizesOf(before, id);
        bytes := bytes - size;
        allocations := allocations - {id};
        assert Sizes() == before - {id};
      } else {
        allocations := allocations[id := (size, count - 1)];
        assert Sizes() == before;
      }
    }

    method RemoveAll(list: seq<Allocation>)
      requires Positive() && SumSizes(Sizes()) <= bytes
      requires forall id :: Occurrences(list, id) <= RefCount(allocations, id)
      modifies this`allocations, this`bytes
      ensures Positive()
      ensures forall id :: RefCount(allocations, id) + Occurrences(list, id) == RefCount(old(allocations), id)
      ensures forall id :: id in allocations ==> id in old(allocations) && allocations[id].0 == old(allocations)[id].0
      ensures bytes + old(SumSizes(Sizes())) == old(bytes) + SumSizes(Sizes())
    {
      hide SumSizes;
      var i := 0;
      while i < |list|
        invariant i <= |list| && Positive() && SumSizes(Sizes()) <= bytes
        invariant forall id :: RefCount(allocations, id) + Occurrences(list[..i], id) == RefCount(old(allocations), id)
        invariant forall id :: id in allocations ==>
                    id in old(allocations) && allocations[id].0 == old(allocations)[id].0
        invariant bytes + old(SumSizes(Sizes())) == old(bytes) + SumSizes(Sizes())
      {
        assert list[..i + 1][..i] == list[..i];
        OccurrencesPrefix(list, i, list[i].identity);
        RemoveOne(list[i].identity);
        i := i + 1;
      }
      assert list[..i] == list;
    }

    method Remove(entry: Entry, ghost items: seq<Item>, ghost key: OwnedKey)
      requires Balanced(items) && Distinct(items) && Find(items, key) == Some(entry)
      modifies this
      ensures Balanced(RemoveKey(items, key))
      ensures Sizes() == KeepSizes(old(Sizes()), RemoveKey(items, key))
    {
      ghost var rest := RemoveKey(items, key);
      forall id
        ensures References(items, id) == References(rest, id) + Occurrences(entry.allocations, id)
      {
        ChargeRemove(items, key, id);
      }
      ChargeRemove(items, key, (0, 0));
      bytes := bytes - entry.overhead;
      entries := entries - 1;
      RemoveAll(entry.allocations);
      assert forall id :: RefCount(allocations, id) == References(rest, id);
      assert Sizes() == KeepSizes(old(Sizes()), rest);
    }
  }

  // ---------- The reference: one global LRU list ----------

  function Touched(items: seq<Item>, key: OwnedKey, now: nat): seq<Item> {
    var found := Find(items, key);
    if found.None? then items else RemoveKey(items, key) + [Item(key, found.value.(touched := now))]
  }

  ghost function Charge(items: seq<Item>, sizes: map<Identity, nat>): nat {
    SumSizes(KeepSizes(sizes, items)) + Overheads(items)
  }

  ghost predicate Over(items: seq<Item>, sizes: map<Identity, nat>, reserved: nat, limit: nat) {
    Charge(items, sizes) + reserved > limit || |items| > MAX_ENTRIES
  }

  /** Evict the least recently used entry until the rest fits. */
  ghost function Trim(items: seq<Item>, sizes: map<Identity, nat>, reserved: nat, limit: nat): seq<Item> {
    if items != [] && Over(items, sizes, reserved, limit) then Trim(items[1..], sizes, reserved, limit) else items
  }

  /** The whole effect of admitting an entry on the global list. */
  ghost function Admitted(items: seq<Item>, sizes: map<Identity, nat>, key: OwnedKey, entry: Entry, reserved: nat,
    limit: nat): seq<Item> {
    var kept := RemoveKey(items, key);
    Trim(kept + [Item(key, entry)], AddSizes(KeepSizes(sizes, kept), entry.allocations), reserved, limit)
  }

  lemma {:induction false} KeepMore(sizes: map<Identity, nat>, items: seq<Item>)
    requires items != []
    ensures KeepSizes(KeepSizes(sizes, items), items[1..]) == KeepSizes(sizes, items[1..])
  {
    assert forall id :: References(items[1..], id) <= References(items, id);
  }

  lemma {:induction false} SumSizesMonotone(small: map<Identity, nat>, large: map<Identity, nat>)
    requires forall id :: id in small ==> id in large && small[id] == large[id]
    ensures SumSizes(small) <= SumSizes(large)
    decreases |small|
  {
    if small != map[] {
      var k :| k in small;
      assert (small - {k}).Keys == small.Keys - {k};
      SumSizesOf(small, k);
      SumSizesOf(large, k);
      SumSizesMonotone(small - {k}, large - {k});
    }
  }

  /** The victims of an admission are a prefix of the recency order, as short as
      the budget allows. */
  lemma {:induction false} TrimPrefix(items: seq<Item>, sizes: map<Identity, nat>, reserved: nat, limit: nat)
    returns (victims: nat)
    ensures victims <= |items| && Trim(items, sizes, reserved, limit) == items[victims..]
    ensures forall n :: 0 <= n < victims ==> Over(items[n..], sizes, reserved, limit)
    ensures victims < |items| ==> !Over(items[victims..], sizes, reserved, limit)
  {
    assert items[0..] == items;
    if items == [] || !Over(items, sizes, reserved, limit) {
      victims := 0;
    } else {
      var rest := items[1..];
      victims := TrimPrefix(rest, sizes, reserved, limit);
      forall n | 1 <= n < victims + 1 ensures Over(items[n..], sizes, reserved, limit) {
        assert items[n..] == rest[n - 1..];
      }
      assert rest[victims..] == items[victims + 1..];
      victims := victims + 1;
    }
  }

  /** The newest entry survives exactly when its own charge fits beside the reservations. */
  lemma NewestSurvives(items: seq<Item>, sizes: map<Identity, nat>, reserved: nat, limit: nat)
    requires items != []
    ensures var x := items[|items| - 1];
      (Trim(items, sizes, reserved, limit) != [] <==> Charge([x], sizes) + reserved <= limit)
      && (Trim(items, sizes, reserved, limit) != [] ==> x in Trim(items, sizes, reserved, limit))
  {
    var victims := TrimPrefix(items, sizes, reserved, limit);
    assert items[|items| - 1..] == [items[|items| - 1]];
    if victims < |items| {
      var kept := items[victims..];
      SuffixCharge(kept, sizes, |kept| - 1);
      assert kept[|kept| - 1..] == items[|items| - 1..];
      assert kept[|kept| - 1] in kept;
    } else {
      assert Over(items[|items| - 1..], sizes, reserved, limit);
    }
  }

  lemma {:induction false} SuffixCharge(items: seq<Item>, sizes: map<Identity, nat>, n: nat)
    requires n <= |items|
    ensures Charge(items[n..], sizes) <= Charge(items, sizes)
  {
    SuffixReferences(items, n);
    SumSizesMonotone(KeepSizes(sizes, items[n..]), KeepSizes(sizes, items));
  }

  lemma {:induction false} SuffixReferences(items: seq<Item>, n: nat)
    requires n <= |items|
    ensures forall id :: References(items[n..], id) <= References(items, id)
    ensures Overheads(items[n..]) <= Overheads(items)
  {
    if n > 0 {
      SuffixReferences(items[1..], n - 1);
      assert items[1..][n - 1..] == items[n..];
    } else {
      assert items[0..] == items;
    }
  }

  lemma {:induction false} FindLast(items: seq<Item>, x: Item)
    requires Distinct(items) && items != [] && items[|items| - 1].key == x.key
    ensures Find(items, x.key) == Some(items[|items| - 1].entry)
  {
    FindDistinct(items, items[|items| - 1]);
  }

  /** What was admitted alone is found again if and only if its own charge fits beside the reservations. */
  lemma AdmittedFound(
    items: seq<Item>, sizes: map<Identity, nat>, key: OwnedKey, entry: Entry, reserved: nat, limit: nat)
    requires Distinct(items)
    ensures var kept := RemoveKey(items, key);
            var all := AddSizes(KeepSizes(sizes, kept), entry.allocations);
            Find(Admitted(items, sizes, key, entry, reserved, limit), key)
            == if Charge([Item(key, entry)], all) + reserved <= limit then Some(entry) else None
  {
    hide Trim, Charge, KeepSizes, AddSizes, Find, RemoveKey;
    var kept := RemoveKey(items, key);
    var all := AddSizes(KeepSizes(sizes, kept), entry.allocations);
    var x := Item(key, entry);
    var trimmed := Trim(kept + [x], all, reserved, limit);
    RemoveKeyDistinct(items, key);
    RemoveKeyMembers(items, key);
    NewestSurvives(kept + [x], all, reserved, limit);
    var victims := TrimPrefix(kept + [x], all, reserved, limit);
    if trimmed != [] {
      assert trimmed[|trimmed| - 1] == x;
      FindLast(trimmed, x);
    } else {
      FoundNothing(key);
    }
  }

  lemma FoundNothing(key: OwnedKey)
    ensures Find([], key) == None
  {
  }

  lemma {:induction false} RemoveKeyDistinct(items: seq<Item>, key: OwnedKey)
    requires Distinct(items)
    ensures Distinct(RemoveKey(items, key))
  {
    if items != [] {
      RemoveKeyDistinct(items[1..], key);
      RemoveKeyMembers(items[1..], key);
    }
  }

  // ---------- Steps of the list that keep its order ----------

  ghost predicate Split(shards: seq<seq<Item>>, items: seq<Item>, hash: OwnedKey -> nat) {
    |shards| == SHARDS && forall i :: 0 <= i < SHARDS ==> shards[i] == Part(items, hash, i)
  }

  function Held(shards: seq<seq<Item>>): nat {
    if shards == [] then 0 else |shards[0]| + Held(shards[1..])
  }

  lemma {:induction false} HeldNothing(shards: seq<seq<Item>>)
    requires forall i :: 0 <= i < |shards| ==> shards[i] == []
    ensures Held(shards) == 0
  {
    if shards != [] { HeldNothing(shards[1..]); }
  }

  lemma {:induction false} HeldMore(shards: seq<seq<Item>>, at: nat, x: Item)
    requires at < |shards|
    ensures Held(shards[at := [x] + shards[at]]) == Held(shards) + 1
  {
    if at > 0 {
      assert shards[at := [x] + shards[at]][1..] == shards[1..][at - 1 := [x] + shards[at]];
      HeldMore(shards[1..], at - 1, x);
    }
  }

  /** The shards together hold as many entries as the list they cut up. */
  lemma {:induction false} HeldTotal(shards: seq<seq<Item>>, items: seq<Item>, hash: OwnedKey -> nat)
    requires Split(shards, items, hash)
    ensures Held(shards) == |items|
    decreases |items|
  {
    if items == [] {
      HeldNothing(shards);
    } else {
      var rest := seq(SHARDS, i requires 0 <= i => Part(items[1..], hash, i));
      var at := hash(items[0].key) % SHARDS;
      HeldTotal(rest, items[1..], hash);
      HeldMore(rest, at, items[0]);
      assert shards == rest[at := [items[0]] + rest[at]];
    }
  }

  lemma RemoveSplit(shards: seq<seq<Item>>, items: seq<Item>, hash: OwnedKey -> nat, key: OwnedKey)
    requires Split(shards, items, hash)
    ensures var at := hash(key) % SHARDS;
      Split(shards[at := RemoveKey(shards[at], key)], RemoveKey(items, key), hash)
      && Find(shards[at], key) == Find(items, key)
  {
    forall i | 0 <= i < SHARDS
      ensures Part(RemoveKey(items, key), hash, i) ==
                if i == hash(key) % SHARDS then RemoveKey(shards[i], key) else shards[i]
    { PartRemove(items, hash, i, key); }
    PartRemove(items, hash, hash(key) % SHARDS, key);
  }

  lemma AppendSplit(shards: seq<seq<Item>>, items: seq<Item>, hash: OwnedKey -> nat, x: Item)
    requires Split(shards, items, hash)
    ensures var at := hash(x.key) % SHARDS; Split(shards[at := shards[at] + [x]], items + [x], hash)
  {
    forall i | 0 <= i < SHARDS
      ensures Part(items + [x], hash, i) == if i == hash(x.key) % SHARDS then shards[i] + [x] else shards[i]
    { PartAppend(items, hash, i, x); }
  }

  /** Moving an entry to the back with a new stamp keeps every charge. */
  lemma TouchedKeeps(items: seq<Item>, key: OwnedKey, now: nat)
    requires Distinct(items) && Recent(items, now) && Find(items, key).Some?
    ensures Distinct(Touched(items, key, now)) && Recent(Touched(items, key, now), now + 1)
    ensures forall id :: References(Touched(items, key, now), id) == References(items, id)
    ensures Overheads(Touched(items, key, now)) == Overheads(items) && |Touched(items, key, now)| == |items|
  {
    hide Distinct, Recent, RemoveKey, Find, References, Overheads;
    var x := Item(key, Find(items, key).value.(touched := now));
    RemoveKeyOrdered(items, key, now);
    RemoveKeyMembers(items, key);
    AppendOrdered(RemoveKey(items, key), x);
    forall id ensures References(Touched(items, key, now), id) == References(items, id) {
      ChargeRemove(items, key, id);
      ChargeAppend(RemoveKey(items, key), x, id);
    }
    ChargeRemove(items, key, (0, 0));
    ChargeAppend(RemoveKey(items, key), x, (0, 0));
  }

  lemma AppendOrdered(items: seq<Item>, x: Item)
    requires Distinct(items) && Recent(items, x.entry.touched) && forall y :: y in items ==> y.key != x.key
    ensures Distinct(items + [x]) && Recent(items + [x], x.entry.touched + 1)
  {
  }

  /** The globally oldest entry is the front of its shard, and the oldest of all fronts. */
  lemma OldestFront(items: seq<Item>, hash: OwnedKey -> nat, clock: nat, shard: nat)
    requires items != [] && Recent(items, clock) && Distinct(items)
    requires Part(items, hash, shard) != []
    ensures Part(items, hash, hash(items[0].key) % SHARDS) != []
    ensures Part(items, hash, hash(items[0].key) % SHARDS)[0] == items[0]
    ensures shard != hash(items[0].key) % SHARDS ==> Part(items, hash, shard)[0].entry.touched > items[0].entry.touched
    ensures RemoveKey(items, items[0].key) == items[1..]
  {
    PartMembers(items, hash, shard);
    var front := Part(items, hash, shard)[0];
    assert front in items;
    FindMember(items[1..], items[0].key);
  }

  function SumNats(s: seq<nat>): nat {
    if s == [] then 0 else s[0] + SumNats(s[1..])
  }

  lemma {:induction false} SumNatsAppend(s: seq<nat>, x: nat)
    ensures SumNats(s + [x]) == SumNats(s) + x
  {
    if s != [] {
      assert (s + [x])[1..] == s[1..] + [x];
      SumNatsAppend(s[1..], x);
    }
  }

  lemma {:induction false} SumNatsRemove(s: seq<nat>, i: nat)
    requires i < |s|
    ensures SumNats(s) == s[i] + SumNats(s[..i] + s[i + 1..])
  {
    if i > 0 {
      assert (s[..i] + s[i + 1..])[1..] == s[1..][..i - 1] + s[1..][i..];
      SumNatsRemove(s[1..], i - 1);
    } else {
      assert s[..0] + s[1..] == s[1..];
    }
  }

  /** Every item is the last value admitted under its key, and of the key's kind. */
  ghost predicate Known(items: seq<Item>, admitted: map<OwnedKey, Product>) {
    forall x :: x in items ==>
        SameKind(x.key.key, x.entry.product) && x.key in admitted && admitted[x.key] == x.entry.product
  }

  /** Which product each key has, whatever the order of use. */
  ghost function Holdings(items: seq<Item>): set<(OwnedKey, Product)> {
    set x | x in items :: (x.key, x.entry.product)
  }

  /** What is left once an owner's entries are gone from the shards before `shard`. */
  ghost function Others(
    held: set<(OwnedKey, Product)>, hash: OwnedKey -> nat, owner: nat, shard: nat): set<(OwnedKey, Product)>
  {
    set e | e in held && !(e.0.owner == owner && hash(e.0) % SHARDS < shard)
  }

  lemma TouchedHoldings(items: seq<Item>, key: OwnedKey, now: nat)
    requires Distinct(items)
    ensures Holdings(Touched(items, key, now)) == Holdings(items)
  {
    hide Distinct, RemoveKey, Find;
    FindMember(items, key);
    RemoveKeyMembers(items, key);
    forall x | x in items && x.key == key ensures Find(items, key) == Some(x.entry) {
      FindDistinct(items, x);
    }
    var touched := Touched(items, key, now);
    forall k, v ensures (k, v) in Holdings(touched) <==> (k, v) in Holdings(items) {
      if (k, v) in Holdings(items) {
        var x :| x in items && x.key == k && x.entry.product == v;
        assert x in touched || (x.key == key && touched[|touched| - 1].entry.product == v);
      }
    }
  }

  ghost predicate SubSizes(sizes: map<Identity, nat>, before: map<Identity, nat>) {
    forall id :: id in sizes ==> id in before && sizes[id] == before[id]
  }

  ghost predicate SameSizes(shards: seq<seq<Item>>, before: seq<seq<Item>>) {
    |shards| == |before| && forall i :: 0 <= i < |shards| ==> |shards[i]| == |before[i]|
  }

  ghost function LastAdmitted(admitted: map<OwnedKey, Product>, key: OwnedKey): Option<Product> {
    if key in admitted then Some(admitted[key]) else None
  }

  // ---------- The cache ----------

  /** What other threads may do while an admission holds the ledger lock. */
  datatype Event = Touch(key: OwnedKey) | DropBuffer(index: nat)

  /** What they do in one round of reclamation: before each front is read, and after the last. */
  datatype Round = Round(search: seq<seq<Event>>, after: seq<Event>)

  class Cache {
    const limit: nat
    const hash: OwnedKey -> nat
    const ledger: Ledger
    var shards: seq<seq<Item>>
    var reserved: nat
    var estimated: nat
    var clock: nat
    var buffers: seq<nat>  // the reservations that are alive
    ghost var recency: seq<Item>
    ghost var admitted: map<OwnedKey, Product>

    /** What holds whenever the shard locks are free. */
    ghost predicate Consistent()
      reads this, ledger
    {
      && Split(shards, recency, hash)
      && Distinct(recency) && Recent(recency, clock)
      && ledger.Balanced(recency)
      && Known(recency, admitted)
      && reserved == SumNats(buffers) && reserved <= limit
    }

    /** What holds whenever the ledger lock is free too. */
    ghost predicate Valid()
      reads this, ledger
    {
      && Consistent()
      && ledger.bytes + reserved <= limit
      && ledger.entries <= MAX_ENTRIES
      && estimated == ledger.bytes
    }

    /** The ledger counts exactly what the eight shards hold together. */
    lemma EntriesHeld()
      requires Consistent()
      ensures ledger.entries == Held(shards)
    {
      HeldTotal(shards, recency, hash);
    }

    constructor (limit: nat, hash: OwnedKey -> nat)
      ensures Valid() && fresh(this.ledger)
      ensures this.limit == limit && this.hash == hash && recency == [] && reserved == 0
    {
      this.limit, this.hash := limit, hash;
      ledger := new Ledger();
      shards := seq(SHARDS, _ => []);
      reserved, estimated, clock := 0, 0, 0;
      recency, admitted, buffers := [], map[], [];
      new;
      assert ledger.Sizes() == map[];
    }

    /** A hit returns the product last admitted under exactly this key, and makes
        the entry the most recently used one. */
    method Get(owner: nat, key: Key) returns (hit: Option<Product>)
      requires Consistent()
      modifies this`shards, this`clock, this`recency
      ensures Consistent() && (old(Valid()) ==> Valid())
      ensures recency == Touched(old(recency), OwnedKey(owner, key), old(clock)) && |recency| == |old(recency)|
      ensures hit.Some? <==> Find(old(recency), OwnedKey(owner, key)).Some?
      ensures hit.Some? ==> LastAdmitted(admitted, OwnedKey(owner, key)) == hit && SameKind(key, hit.value)
      ensures hit.None? ==> recency == old(recency)
      ensures SameSizes(shards, old(shards)) && Holdings(recency) == Holdings(old(recency))
      ensures clock == old(clock) + if hit.Some? then 1 else 0
    {
      hide Distinct, Recent, RemoveKey, References, Overheads, Part, Holdings;
      var k := OwnedKey(owner, key);
      TouchedHoldings(recency, k, clock);
      var at := hash(k) % SHARDS;
      RemoveSplit(shards, recency, hash, k);
      var found := Find(shards[at], k);
      if found.None? { return None; }
      FindMember(recency, k);
      PartDistinct(recency, hash, at);
      ChargeRemove(shards[at], k, (0, 0));
      TouchedKeeps(recency, k, clock);
      RemoveKeyMembers(recency, k);
      var x := Item(k, found.value.(touched := clock));
      shards := shards[at := RemoveKey(shards[at], k)];
      AppendSplit(shards, RemoveKey(recency, k), hash, x);
      shards := shards[at := shards[at] + [x]];
      recency := RemoveKey(recency, k) + [x];
      clock := clock + 1;
      hit := Some(found.value.product);
    }

    method ReserveBuffer(bytes: nat) returns (granted: bool)
      requires Valid()
      modifies this`reserved, this`buffers
      ensures Valid()
      ensures granted <==> ledger.bytes + old(reserved) + bytes <= limit
      ensures buffers == old(buffers) + (if granted then [bytes] else [])
    {
      granted := ledger.bytes + reserved + bytes <= limit;
      if granted {
        reserved := reserved + bytes;
        SumNatsAppend(buffers, bytes);
        buffers := buffers + [bytes];
      }
    }

    /** Dropping a reservation needs no lock. */
    method DropReservation(index: nat)
      requires Consistent() && index < |buffers|
      modifies this`reserved, this`buffers
      ensures Consistent() && (old(Valid()) ==> Valid())
      ensures buffers == old(buffers[..index] + buffers[index + 1..]) && reserved + old(buffers[index]) == old(reserved)
    {
      var rest := buffers[..index] + buffers[index + 1..];
      SumNatsRemove(buffers, index);
      reserved, buffers := reserved - buffers[index], rest;
    }

    /** Hits and dropped reservations of other threads, while the ledger is locked. */
    method Interfere(events: seq<Event>)
      requires Consistent()
      modifies this`shards, this`clock, this`recency, this`reserved, this`buffers
      ensures Consistent()
      ensures |recency| == |old(recency)| && SameSizes(shards, old(shards))
      ensures Holdings(recency) == Holdings(old(recency)) && reserved <= old(reserved)
      ensures events == [] ==>
                && recency == old(recency) && shards == old(shards)
                && reserved == old(reserved) && clock == old(clock) && buffers == old(buffers)
    {
      var i := 0;
      while i < |events|
        invariant i <= |events| && Consistent()
        invariant |recency| == |old(recency)| && SameSizes(shards, old(shards))
        invariant Holdings(recency) == Holdings(old(recency)) && reserved <= old(reserved)
        invariant i == 0 ==>
                    && recency == old(recency) && shards == old(shards)
                    && reserved == old(reserved) && clock == old(clock) && buffers == old(buffers)
      {
        match events[i] {
          case Touch(key) => var hit := Get(key.owner, key.key);
          case DropBuffer(index) => if index < |buffers| { DropReservation(index); }
        }
        i := i + 1;
      }
    }

    /** The shard whose front was touched longest ago when its turn to be read came. Each front is read under
      * the lock of its own shard, so other threads may be at work before each. */
    method Oldest(interference: seq<seq<Event>>) returns (oldest: Option<nat>)
      requires Consistent()
      modifies this`shards, this`clock, this`recency, this`reserved, this`buffers
      ensures Consistent()
      ensures SameSizes(shards, old(shards)) && |recency| == |old(recency)|
      ensures recency != [] ==> oldest.Some?
      ensures oldest.Some? ==> oldest.value < SHARDS && shards[oldest.value] != []
      ensures interference == [] ==>
                && reserved == old(reserved) && clock == old(clock) && buffers == old(buffers)
                && recency == old(recency) && shards == old(shards)
      ensures interference == [] && recency != [] ==> oldest == Some(hash(recency[0].key) % SHARDS)
    {
      hide Distinct, Recent, Known, SumNats, Ledger.Balanced, Holdings;
      var touched := 0;
      oldest := None;
      var i := 0;
      while i < SHARDS
        invariant i <= SHARDS && Consistent()
        invariant SameSizes(shards, old(shards)) && |recency| == |old(recency)|
        invariant interference == [] ==>
                    && reserved == old(reserved) && clock == old(clock) && buffers == old(buffers)
                    && recency == old(recency) && shards == old(shards)
        invariant oldest.Some? ==> oldest.value < i && shards[oldest.value] != []
        invariant forall j :: 0 <= j < i && shards[j] != [] ==> oldest.Some?
        invariant interference == [] && oldest.Some? ==> shards[oldest.value][0].entry.touched == touched
        invariant interference == [] ==>
                    forall j :: 0 <= j < i && shards[j] != [] ==> touched <= shards[j][0].entry.touched
      {
        Interfere(if i < |interference| then interference[i] else []);
        if shards[i] != [] && (oldest.None? || shards[i][0].entry.touched < touched) {
          oldest, touched := Some(i), shards[i][0].entry.touched;
        }
        i := i + 1;
      }
      if recency != [] {
        var first := hash(recency[0].key) % SHARDS;
        PartMembers(recency, hash, first);
        assert recency[0] in shards[first];
        if interference == [] {
          OldestFront(recency, hash, clock, oldest.value);
        }
      }
    }

    /** Remove one entry from its shard and from the ledger. */
    method Retire(key: OwnedKey)
      requires Consistent() && Find(recency, key).Some?
      modifies this`shards, this`recency, ledger
      ensures Consistent()
      ensures recency == RemoveKey(old(recency), key) && |recency| + 1 == |old(recency)|
      ensures ledger.Sizes() == KeepSizes(old(ledger.Sizes()), recency)
      ensures shards == old(shards)[hash(key) % SHARDS := RemoveKey(old(shards)[hash(key) % SHARDS], key)]
    {
      var at := hash(key) % SHARDS;
      RemoveSplit(shards, recency, hash, key);
      RemoveKeyOrdered(recency, key, clock);
      RemoveKeyMembers(recency, key);
      ChargeRemove(recency, key, (0, 0));
      var entry := Find(shards[at], key).value;
      shards := shards[at := RemoveKey(shards[at], key)];
      ledger.Remove(entry, recency, key);
      recency := RemoveKey(recency, key);
    }

    /** Pop the front of one shard. */
    method EvictFront(index: nat)
      requires Consistent() && index < SHARDS && shards[index] != []
      modifies this`shards, this`recency, ledger
      ensures Consistent()
      ensures |recency| + 1 == |old(recency)|
      ensures old(recency) != [] && (index == hash(old(recency)[0].key) % SHARDS ==> recency == old(recency)[1..])
      ensures ledger.Sizes() == KeepSizes(old(ledger.Sizes()), recency)
    {
      var x := shards[index][0];
      PartMembers(recency, hash, index);
      assert x in recency;
      FindDistinct(recency, x);
      OldestFront(recency, hash, clock, index);
      Retire(x.key);
    }

    /** Append an entry for a key that is not in the cache. */
    method Append(key: OwnedKey, product: Product, allocations: seq<Allocation>, overhead: nat)
      requires Consistent() && SameKind(key.key, product) && forall x :: x in recency ==> x.key != key
      modifies this`shards, this`recency, this`clock, this`admitted, ledger
      ensures Consistent()
      ensures recency == old(recency) + [Item(key, Entry(product, allocations, overhead, old(clock)))]
      ensures ledger.Sizes() == AddSizes(old(ledger.Sizes()), allocations)
      ensures admitted == old(admitted)[key := product] && clock == old(clock) + 1
    {
      var at := hash(key) % SHARDS;
      var entry := Entry(product, allocations, overhead, clock);
      AppendOrdered(recency, Item(key, entry));
      AppendSplit(shards, recency, hash, Item(key, entry));
      ledger.Add(entry, recency, key);
      shards := shards[at := shards[at] + [Item(key, entry)]];
      recency := recency + [Item(key, entry)];
      clock := clock + 1;
      admitted := admitted[key := product];
    }

    method Admit(key: OwnedKey, product: Product, allocations: seq<Allocation>, overhead: nat)
      requires Consistent() && SameKind(key.key, product)
      modifies this`shards, this`recency, this`clock, this`admitted, ledger
      ensures Consistent()
      ensures recency == RemoveKey(old(recency), key) + [Item(key, Entry(product, allocations, overhead, old(clock)))]
      ensures ledger.Sizes() == AddSizes(KeepSizes(old(ledger.Sizes()), RemoveKey(old(recency), key)), allocations)
      ensures admitted == old(admitted)[key := product] && clock == old(clock) + 1
    {
      var at := hash(key) % SHARDS;
      FindMember(recency, key);
      RemoveKeyMembers(recency, key);
      RemoveSplit(shards, recency, hash, key);
      if Find(shards[at], key).Some? {
        Retire(key);
      } else {
        KeepAll(recency);
      }
      Append(key, product, allocations, overhead);
    }

    lemma KeepAll(items: seq<Item>)
      requires ledger.Balanced(items)
      ensures KeepSizes(ledger.Sizes(), items) == ledger.Sizes()
    {
      assert forall id :: id in ledger.allocations ==> RefCount(ledger.allocations, id) > 0;
    }

    /** Sizes that stay on record for exactly what is still referenced. */
    lemma SizesKept(before: map<Identity, nat>)
      requires ledger.Balanced(recency) && SubSizes(ledger.Sizes(), before)
      ensures ledger.Sizes() == KeepSizes(before, recency)
    {
      forall id | id in before && References(recency, id) > 0 ensures id in ledger.Sizes() {
        assert RefCount(ledger.allocations, id) > 0;
      }
      forall id | id in ledger.Sizes() ensures References(recency, id) > 0 {
        assert RefCount(ledger.allocations, id) > 0;
      }
    }

    lemma NothingCharged()
      requires Consistent() && recency == []
      ensures ledger.bytes == 0 && ledger.entries == 0 && ledger.Sizes() == map[]
    {
      assert forall id :: id in ledger.allocations ==> RefCount(ledger.allocations, id) > 0;
      assert ledger.Sizes() == map[];
    }

    ghost predicate Fits()
      reads this, ledger
    {
      ledger.bytes + reserved <= limit && ledger.entries <= MAX_ENTRIES
    }

    /** One round of reclamation, with other threads at work during the search for the oldest front and
      * between the search and the removal. */
    method EvictOldest(search: seq<seq<Event>>, after: seq<Event>)
      requires Consistent() && recency != []
      modifies this`shards, this`clock, this`recency, this`reserved, this`buffers, ledger
      ensures Consistent()
      ensures |recency| + 1 == |old(recency)|
      ensures search == [] && after == [] ==>
                && reserved == old(reserved) && clock == old(clock) && buffers == old(buffers)
                && recency == old(recency)[1..]
      ensures search == [] && after == [] ==> ledger.Sizes() == KeepSizes(old(ledger.Sizes()), recency)
    {
      var oldest := Oldest(search);
      Interfere(after);
      EvictFront(oldest.value);
    }

    method Reclaim(interference: seq<Round>)
      requires Consistent()
      modifies this`shards, this`clock, this`recency, this`reserved, this`buffers, ledger
      ensures Consistent() && Fits()
      ensures interference == [] ==>
                && reserved == old(reserved) && clock == old(clock) && buffers == old(buffers)
                && recency == Trim(old(recency), old(ledger.Sizes()), reserved, limit)
                && ledger.Sizes() == KeepSizes(old(ledger.Sizes()), recency)
    {
      ghost var start, sizes := recency, ledger.Sizes();
      KeepAll(recency);
      var round := 0;
      while ledger.bytes + reserved > limit || ledger.entries > MAX_ENTRIES
        invariant Consistent()
        invariant interference == [] ==> reserved == old(reserved) && clock == old(clock) && buffers == old(buffers)
        invariant interference == [] ==> ledger.Sizes() == KeepSizes(sizes, recency)
        invariant interference == [] ==> Trim(recency, sizes, reserved, limit) == Trim(start, sizes, reserved, limit)
        decreases |recency|
      {
        if recency == [] { NothingCharged(); }
        if interference == [] { KeepMore(sizes, recency); }
        if round < |interference| {
          EvictOldest(interference[round].search, interference[round].after);
        } else {
          EvictOldest([], []);
        }
        round := round + 1;
      }
    }

    /** Admission. Whatever other threads do meanwhile, the budget holds again when
        the ledger is unlocked; alone, it is one step of a global LRU list. */
    method Insert(
      owner: nat, key: Key, product: Product, allocations: seq<Allocation>, overhead: nat,
      interference: seq<Round>)
      requires Valid() && SameKind(key, product)
      modifies this, ledger
      ensures Valid()
      ensures SumBytes(allocations) + overhead > limit ==>
                && recency == old(recency) && admitted == old(admitted) && ledger.Sizes() == old(ledger.Sizes())
                && reserved == old(reserved) && clock == old(clock) && buffers == old(buffers)
      ensures SumBytes(allocations) + overhead <= limit ==> admitted == old(admitted)[OwnedKey(owner, key) := product]
      ensures SumBytes(allocations) + overhead <= limit && interference == [] ==>
                && reserved == old(reserved) && clock == old(clock) + 1 && buffers == old(buffers)
                && recency == Admitted(old(recency), old(ledger.Sizes()), OwnedKey(owner, key),
                                       Entry(product, allocations, overhead, old(clock)), reserved, limit)
                && ledger.Sizes() == KeepSizes(
                     AddSizes(
                       KeepSizes(old(ledger.Sizes()), RemoveKey(old(recency), OwnedKey(owner, key))), allocations),
                     recency)
    {
      if SumBytes(allocations) + overhead > limit {
        return;
      }
      Admit(OwnedKey(owner, key), product, allocations, overhead);
      Reclaim(interference);
      estimated := ledger.bytes;
    }

    /** Drop every entry of one owner. The shards are locked one after the other, so other threads may be at
      * work before each. */
    method RemoveOwner(owner: nat, interference: seq<seq<Event>>)
      requires Valid()
      modifies this`shards, this`clock, this`recency, this`reserved, this`buffers, this`estimated, ledger
      ensures Valid()
      ensures Holdings(recency) == Others(Holdings(old(recency)), hash, owner, SHARDS)
      ensures interference == [] ==>
                && recency == Without(old(recency), owner)
                && reserved == old(reserved) && clock == old(clock) && buffers == old(buffers)
      ensures ledger.Sizes() == KeepSizes(old(ledger.Sizes()), recency)
    {
      hide Distinct, Recent, Split, Known, SumNats, Without;
      var shard := 0;
      while shard < SHARDS
        invariant shard <= SHARDS && Consistent() && Fits()
        invariant interference == [] ==>
                    && Without(recency, owner) == Without(old(recency), owner)
                    && reserved == old(reserved) && clock == old(clock) && buffers == old(buffers)
        invariant SubSizes(ledger.Sizes(), old(ledger.Sizes()))
        invariant Holdings(recency) == Others(Holdings(old(recency)), hash, owner, shard)
      {
        Interfere(if shard < |interference| then interference[shard] else []);
        RetireShard(owner, shard);
        shard := shard + 1;
      }
      OthersOnly(old(recency), recency, owner);
      WithoutAll(recency, owner);
      SizesKept(old(ledger.Sizes()));
      estimated := ledger.bytes;
    }

    lemma OthersOnly(before: seq<Item>, after: seq<Item>, owner: nat)
      requires Holdings(after) == Others(Holdings(before), hash, owner, SHARDS)
      ensures forall x :: x in after ==> x.key.owner != owner
    {
      forall x | x in after ensures x.key.owner != owner {
        assert (x.key, x.entry.product) in Holdings(after);
      }
    }

    method RetireShard(owner: nat, shard: nat)
      requires Consistent() && Fits() && shard < SHARDS
      modifies this`shards, this`recency, ledger
      ensures Consistent() && Fits()
      ensures Without(recency, owner) == Without(old(recency), owner)
      ensures forall since :: Holdings(old(recency)) == Others(since, hash, owner, shard) ==>
                Holdings(recency) == Others(since, hash, owner, shard + 1)
      ensures SubSizes(ledger.Sizes(), old(ledger.Sizes()))
    {
      hide Distinct, Recent, Known, SumNats, Without, Holdings;
      var keys := OwnerKeys(shards[shard], owner);
      OwnedParts(shard, owner, keys);
      RetireAll(keys, owner, shard);
      ShardRetired(old(recency), recency, keys, owner, shard);
    }

    lemma ShardRetired(before: seq<Item>, after: seq<Item>, keys: seq<OwnedKey>, owner: nat, shard: nat)
      requires forall x :: x in after <==> x in before && x.key !in keys
      requires forall x :: x in before ==>
                 (x.key in keys <==> hash(x.key) % SHARDS == shard && x.key.owner == owner)
      ensures forall since :: Holdings(before) == Others(since, hash, owner, shard) ==>
                Holdings(after) == Others(since, hash, owner, shard + 1)
    {
      forall k, v
        ensures (k, v) in Holdings(after) <==>
                  (k, v) in Holdings(before) && !(hash(k) % SHARDS == shard && k.owner == owner)
      {
        if (k, v) in Holdings(before) {
          var x :| x in before && x.key == k && x.entry.product == v;
          assert x in after || x.key in keys;
        }
      }
      forall since | Holdings(before) == Others(since, hash, owner, shard)
        ensures Holdings(after) == Others(since, hash, owner, shard + 1)
      {
        forall k, v ensures (k, v) in Holdings(after) <==> (k, v) in Others(since, hash, owner, shard + 1) {
          assert (k, v) in Holdings(before) <==> (k, v) in Others(since, hash, owner, shard);
        }
      }
    }

    lemma OwnedParts(shard: nat, owner: nat, keys: seq<OwnedKey>)
      requires Consistent() && shard < SHARDS && keys == OwnerKeys(shards[shard], owner)
      ensures forall i, j :: 0 <= i < j < |keys| ==> keys[i] != keys[j]
      ensures forall k :: k in keys ==> k.owner == owner && Find(recency, k).Some?
      ensures forall x :: x in recency ==>
                (x.key in keys <==> hash(x.key) % SHARDS == shard && x.key.owner == owner)
    {
      PartMembers(recency, hash, shard);
      PartDistinct(recency, hash, shard);
      OwnerKeysComplete(shards[shard], owner);
      forall k | k in keys ensures Find(recency, k).Some? {
        var x :| x in shards[shard] && x.key == k;
        FindDistinct(recency, x);
      }
      forall x | x in recency && x.key in keys ensures hash(x.key) % SHARDS == shard {
        var y :| y in shards[shard] && y.key == x.key;
      }
    }

    method RetireAll(keys: seq<OwnedKey>, owner: nat, shard: nat)
      requires Consistent() && Fits() && shard < SHARDS
      requires forall i, j :: 0 <= i < j < |keys| ==> keys[i] != keys[j]
      requires forall k :: k in keys ==> k.owner == owner && Find(recency, k).Some?
      modifies this`shards, this`recency, ledger
      ensures Consistent() && Fits()
      ensures Without(recency, owner) == Without(old(recency), owner)
      ensures forall x :: x in recency <==> x in old(recency) && x.key !in keys
      ensures SubSizes(ledger.Sizes(), old(ledger.Sizes()))
    {
      hide Distinct, Recent, Split, Known, SumNats, Without;
      var i := 0;
      while i < |keys|
        invariant i <= |keys| && Consistent() && Fits() && SubSizes(ledger.Sizes(), old(ledger.Sizes()))
        invariant Without(recency, owner) == Without(old(recency), owner)
        invariant forall x :: x in recency <==> x in old(recency) && x.key !in keys[..i]
      {
        ghost var now := recency;
        FindMember(old(recency), keys[i]);
        FindDistinct(recency, Item(keys[i], Find(old(recency), keys[i]).value));
        WithoutRemove(recency, owner, keys[i]);
        RemoveKeyMembers(recency, keys[i]);
        RetireKeepsBudget(keys[i]);
        i := i + 1;
      }
      assert keys[..i] == keys;
    }

    method RetireKeepsBudget(key: OwnedKey)
      requires Consistent() && Fits() && Find(recency, key).Some?
      modifies this`shards, this`recency, ledger
      ensures Consistent() && Fits()
      ensures recency == RemoveKey(old(recency), key)
      ensures SubSizes(ledger.Sizes(), old(ledger.Sizes()))
    {
      ChargeRemove(recency, key, (0, 0));
      ghost var sizes := ledger.Sizes();
      Retire(key);
      SumSizesMonotone(ledger.Sizes(), sizes);
    }

    /** The sort orders cached for one owner, shard by shard. The shards are locked one after the other, so
      * hits of other threads may fall before each. */
    method Orders(owner: nat, interference: seq<seq<Event>>) returns (result: seq<(int, int)>)
      requires Consistent()
      modifies this`shards, this`clock, this`recency, this`reserved, this`buffers
      ensures Consistent() && (old(Valid()) ==> Valid()) && Holdings(recency) == Holdings(old(recency))
      ensures forall o, v :: (o, v) in result <==> (OwnedKey(owner, OrderKey(o)), Order(v)) in Holdings(recency)
      ensures interference == [] ==> shards == old(shards) && result == OrdersAcross(shards, owner)
    {
      hide Distinct, Recent, Known, SumNats, Holdings, OrdersOf, Part;
      result := [];
      var shard := 0;
      assert shards[..|shards|] == shards;
      while shard < SHARDS
        invariant shard <= SHARDS && Consistent() && reserved <= old(reserved)
        invariant Holdings(recency) == Holdings(old(recency))
        invariant interference == [] ==> shards == old(shards) && result == OrdersAcross(shards[..shard], owner)
        invariant forall o, v :: (o, v) in result <==>
                    && (OwnedKey(owner, OrderKey(o)), Order(v)) in Holdings(old(recency))
                    && hash(OwnedKey(owner, OrderKey(o))) % SHARDS < shard
      {
        Interfere(if shard < |interference| then interference[shard] else []);
        ShardOrders(owner, shard);
        assert shards[..shard + 1][..shard] == shards[..shard];
        result := result + OrdersOf(shards[shard], owner);
        shard := shard + 1;
      }
    }

    lemma ShardOrders(owner: nat, shard: nat)
      requires Consistent() && shard < SHARDS
      ensures forall o, v :: (o, v) in OrdersOf(shards[shard], owner) <==>
                && (OwnedKey(owner, OrderKey(o)), Order(v)) in Holdings(recency)
                && hash(OwnedKey(owner, OrderKey(o))) % SHARDS == shard
    {
      hide Distinct, Recent, Known, SumNats, OrdersOf, Part;
      PartMembers(recency, hash, shard);
      OrdersOfMembers(shards[shard], owner);
      forall o, v
        ensures (o, v) in OrdersOf(shards[shard], owner) <==>
                  && (OwnedKey(owner, OrderKey(o)), Order(v)) in Holdings(recency)
                  && hash(OwnedKey(owner, OrderKey(o))) % SHARDS == shard
      {
        if (OwnedKey(owner, OrderKey(o)), Order(v)) in Holdings(recency) {
          var x :| x in recency && x.key == OwnedKey(owner, OrderKey(o)) && x.entry.product == Order(v);
          assert x in shards[shard] <==> hash(x.key) % SHARDS == shard;
        }
      }
    }

    method Clear()
      requires Valid()
      modifies this`shards, this`recency, this`estimated, ledger
      ensures Valid() && recency == [] && ledger.bytes == 0 && ledger.entries == 0 && ledger.Sizes() == map[]
    {
      shards := seq(SHARDS, _ => []);
      recency := [];
      ledger.Reset();
      estimated := 0;
      assert SumNats(buffers) == reserved;
      NothingCharged();
    }

    // ---------- Runs ----------

    ghost function Now(): Lru
      reads this, ledger
    {
      Lru(recency, ledger.Sizes(), buffers, clock, admitted)
    }

    /** At every moment the charges and the reservations fit the budget. */
    lemma WithinBudget()
      requires Valid()
      ensures Charge(Now().items, Now().sizes) + SumNats(Now().buffers) <= limit && |Now().items| <= MAX_ENTRIES
      ensures Charge(Now().items, Now().sizes) == ledger.bytes && SumNats(Now().buffers) == reserved
    {
      KeepAll(recency);
    }

    /** One operation of the cache, alone, is one step of the global list. */
    method Do(op: Op) returns (answer: Answer)
      requires Valid() && WellKinded(op)
      modifies this, ledger
      ensures Valid() && Now() == Next(old(Now()), op, limit) && answer == AnswerTo(old(Now()), op, limit)
    {
      hide Distinct, Recent, Split, Known, Charge, Admitted, Touched, KeepSizes, AddSizes, Without, RemoveKey, Find;
      WithinBudget();
      answer := Done;
      match op {
        case Hit(owner, key) =>
          var hit := GetFound(owner, key);
          answer := Found(hit);
        case Admit(owner, key, product, m) => Insert(owner, key, product, m.allocations, m.overhead, []);
        case Reserve(bytes) =>
          var granted := ReserveBuffer(bytes);
          answer := Granted(granted);
        case Release(index) =>
          if index < |buffers| {
            DropReservation(index);
          }
        case Disown(owner) => RemoveOwner(owner, []);
        case Empty => Clear();
      }
    }

    /** A hit returns the product that the list holds under the key. */
    method GetFound(owner: nat, key: Key) returns (hit: Option<Product>)
      requires Valid()
      modifies this`shards, this`clock, this`recency
      ensures Valid()
      ensures recency == Touched(old(recency), OwnedKey(owner, key), old(clock))
      ensures hit == ProductOf(Find(old(recency), OwnedKey(owner, key)))
      ensures clock == old(clock) + if hit.Some? then 1 else 0
      ensures hit.None? ==> recency == old(recency)
    {
      hide Distinct, Recent, Split;
      ghost var k := OwnedKey(owner, key);
      FindMember(recency, k);
      ghost var found := Find(recency, k);
      assert found.Some? ==> Item(k, found.value) in recency && admitted[k] == found.value.product;
      hit := Get(owner, key);
    }

    /** Over every run of hits, admissions, reservations and removals the cache holds and answers what one
      * global list of least recently used entries with one budget does. */
    method Perform(run: seq<Op>) returns (answers: seq<Answer>)
      requires Valid() && forall i :: 0 <= i < |run| ==> WellKinded(run[i])
      modifies this, ledger
      ensures Valid() && Now() == Fold(old(Now()), run, limit) && answers == Answers(old(Now()), run, limit)
    {
      hide Cache.Valid, Cache.Now, Next, AnswerTo;
      answers := [];
      for i := 0 to |run|
        invariant Valid() && Now() == Fold(old(Now()), run[..i], limit)
        invariant answers == Answers(old(Now()), run[..i], limit)
      {
        assert run[..i + 1][..i] == run[..i];
        var answer := Do(run[i]);
        answers := answers + [answer];
      }
      assert run[..|run|] == run;
    }
  }

  // ---------- The cache as one list ----------

  datatype Op =
    | Hit(owner: nat, key: Key)
    | Admit(owner: nat, key: Key, product: Product, m: Measured)
    | Reserve(bytes: nat)
    | Release(index: nat)
    | Disown(owner: nat)
    | Empty

  datatype Answer = Found(product: Option<Product>) | Granted(granted: bool) | Done

  /** Entries from the least recently used on, the sizes on record, the reservations that are alive. */
  datatype Lru = Lru(
    items: seq<Item>, sizes: map<Identity, nat>, buffers: seq<nat>, clock: nat, admitted: map<OwnedKey, Product>)

  predicate WellKinded(op: Op) {
    op.Admit? ==> SameKind(op.key, op.product)
  }

  function ProductOf(entry: Option<Entry>): Option<Product> {
    if entry.Some? then Some(entry.value.product) else None
  }

  ghost function Next(s: Lru, op: Op, limit: nat): Lru {
    match op
    case Hit(owner, key) =>
      var k := OwnedKey(owner, key);
      if Find(s.items, k).None? then s else s.(items := Touched(s.items, k, s.clock), clock := s.clock + 1)
    case Admit(owner, key, product, m) =>
      if Cost(m) > limit then s
      else
        var k := OwnedKey(owner, key);
        var entry := Entry(product, m.allocations, m.overhead, s.clock);
        var items := Admitted(s.items, s.sizes, k, entry, SumNats(s.buffers), limit);
        Lru(
          items, KeepSizes(AddSizes(KeepSizes(s.sizes, RemoveKey(s.items, k)), m.allocations), items),
          s.buffers, s.clock + 1, s.admitted[k := product])
    case Reserve(bytes) =>
      if Charge(s.items, s.sizes) + SumNats(s.buffers) + bytes <= limit then s.(buffers := s.buffers + [bytes]) else s
    case Release(index) =>
      if index < |s.buffers| then s.(buffers := s.buffers[..index] + s.buffers[index + 1..]) else s
    case Disown(owner) =>
      var items := Without(s.items, owner);
      s.(items := items, sizes := KeepSizes(s.sizes, items))
    case Empty => s.(items := [], sizes := map[])
  }

  ghost function AnswerTo(s: Lru, op: Op, limit: nat): Answer {
    match op
    case Hit(owner, key) => Found(ProductOf(Find(s.items, OwnedKey(owner, key))))
    case Reserve(bytes) => Granted(Charge(s.items, s.sizes) + SumNats(s.buffers) + bytes <= limit)
    case _ => Done
  }

  ghost function Fold(s: Lru, run: seq<Op>, limit: nat): Lru {
    if run == [] then s else Next(Fold(s, run[..|run| - 1], limit), run[|run| - 1], limit)
  }

  ghost function Answers(s: Lru, run: seq<Op>, limit: nat): seq<Answer> {
    if run == [] then []
    else
      var before := run[..|run| - 1];
      Answers(s, before, limit) + [AnswerTo(Fold(s, before, limit), run[|run| - 1], limit)]
  }

  function Without(items: seq<Item>, owner: nat): seq<Item> {
    if items == [] then []
    else if items[0].key.owner == owner then Without(items[1..], owner)
    else [items[0]] + Without(items[1..], owner)
  }

  function OwnerKeys(items: seq<Item>, owner: nat): seq<OwnedKey> {
    if items == [] then []
    else if items[0].key.owner == owner then [items[0].key] + OwnerKeys(items[1..], owner)
    else OwnerKeys(items[1..], owner)
  }

  lemma {:induction false} OwnerKeysComplete(items: seq<Item>, owner: nat)
    requires Distinct(items)
    ensures forall k :: k in OwnerKeys(items, owner) <==> k.owner == owner && exists x :: x in items && x.key == k
    ensures forall i, j :: 0 <= i < j < |OwnerKeys(items, owner)| ==>
              OwnerKeys(items, owner)[i] != OwnerKeys(items, owner)[j]
  {
    if items != [] { OwnerKeysComplete(items[1..], owner); }
  }

  lemma {:induction false} WithoutAll(items: seq<Item>, owner: nat)
    requires forall x :: x in items ==> x.key.owner != owner
    ensures Without(items, owner) == items
  {
    if items != [] { WithoutAll(items[1..], owner); }
  }

  lemma {:induction false} WithoutRemove(items: seq<Item>, owner: nat, key: OwnedKey)
    requires key.owner == owner
    ensures Without(RemoveKey(items, key), owner) == Without(items, owner)
  {
    if items != [] { WithoutRemove(items[1..], owner, key); }
  }

  function OrdersOf(items: seq<Item>, owner: nat): seq<(int, int)> {
    if items == [] then []
    else
      var x := items[0];
      if x.key.owner == owner && x.key.key.OrderKey? && x.entry.product.Order?
      then [(x.key.key.order, x.entry.product.at)] + OrdersOf(items[1..], owner)
      else OrdersOf(items[1..], owner)
  }

  /** The orders of each shard from its least recently used one on, after those of the shards before it. */
  function OrdersAcross(shards: seq<seq<Item>>, owner: nat): seq<(int, int)> {
    if shards == [] then []
    else OrdersAcross(shards[..|shards| - 1], owner) + OrdersOf(shards[|shards| - 1], owner)
  }

  lemma {:induction false} OrdersOfMembers(items: seq<Item>, owner: nat)
    ensures forall o, v :: (o, v) in OrdersOf(items, owner) <==>
      exists x :: x in items && x.key == OwnedKey(owner, OrderKey(o)) && x.entry.product == Order(v)
  {
    if items != [] {
      OrdersOfMembers(items[1..], owner);
      var x, rest := items[0], OrdersOf(items[1..], owner);
      forall o, v
        ensures (o, v) in OrdersOf(items, owner) <==>
          exists y :: y in items && y.key == OwnedKey(owner, OrderKey(o)) && y.entry.product == Order(v)
      {
        if (o, v) in rest {
          var y :| y in items[1..] && y.key == OwnedKey(owner, OrderKey(o)) && y.entry.product == Order(v);
          assert y in items;
        } else if (o, v) in OrdersOf(items, owner) {
          assert x in items && x.key == OwnedKey(owner, OrderKey(o)) && x.entry.product == Order(v);
        }
        if y :| y in items && y.key == OwnedKey(owner, OrderKey(o)) && y.entry.product == Order(v) {
          if y != x { assert y in items[1..]; }
        }
      }
    }
  }

  // ---------- The typed face of one snapshot ----------

  /** What the insertion measures before it locks anything. */
  datatype Measured = Measured(allocations: seq<Allocation>, overhead: nat)

  function Cost(m: Measured): nat {
    SumBytes(m.allocations) + m.overhead
  }

  /** A product over the limit is not admitted. */
  function Stored(
    admitted: map<OwnedKey, Product>, key: OwnedKey, product: Product, m: Measured, limit: nat): map<OwnedKey, Product>
  {
    if Cost(m) > limit then admitted else admitted[key := product]
  }

  ghost function StoredAlone(
    items: seq<Item>, sizes: map<Identity, nat>, key: OwnedKey, product: Product, m: Measured, now: nat,
    reserved: nat, limit: nat): seq<Item>
  {
    if Cost(m) > limit then items
    else Admitted(items, sizes, key, Entry(product, m.allocations, m.overhead, now), reserved, limit)
  }

  function StoredOrders(
    admitted: map<OwnedKey, Product>, owner: nat, orders: seq<(int, int)>, ms: seq<Measured>, limit: nat)
    : map<OwnedKey, Product>
    requires |ms| == |orders|
  {
    if orders == [] then admitted
    else
      var last := |orders| - 1;
      Stored(
        StoredOrders(admitted, owner, orders[..last], ms[..last], limit),
        OwnedKey(owner, OrderKey(orders[last].0)), Order(orders[last].1), ms[last], limit)
  }

  /** One snapshot's view. A product comes back under the kind it was stored as, so
      the other arms of each match are never taken: every writer stores the kind of its key. */
  class DerivedCache {
    const owner: nat
    const cache: Cache

    constructor (owner: nat, cache: Cache)
      ensures this.owner == owner && this.cache == cache
    {
      this.owner, this.cache := owner, cache;
    }

    method GetPage(text: string) returns (page: Option<int>)
      requires cache.Valid()
      modifies cache
      ensures cache.Valid()
      ensures page.Some? <==> Find(old(cache.recency), OwnedKey(owner, PageKey(text))).Some?
      ensures page.Some? ==> LastAdmitted(old(cache.admitted), OwnedKey(owner, PageKey(text))) == Some(Page(page.value))
      ensures cache.recency == Touched(old(cache.recency), OwnedKey(owner, PageKey(text)), old(cache.clock))
    {
      var hit := cache.Get(owner, PageKey(text));
      match hit {
        case None => page := None;
        case Some(Page(at)) => page := Some(at);
        case Some(_) => assert false;
      }
    }

    method GetMatches(text: string) returns (matches: Option<int>)
      requires cache.Valid()
      modifies cache
      ensures cache.Valid()
      ensures matches.Some? <==> Find(old(cache.recency), OwnedKey(owner, MatchesKey(text))).Some?
      ensures matches.Some? ==>
                LastAdmitted(old(cache.admitted), OwnedKey(owner, MatchesKey(text))) == Some(Matches(matches.value))
      ensures cache.recency == Touched(old(cache.recency), OwnedKey(owner, MatchesKey(text)), old(cache.clock))
    {
      var hit := cache.Get(owner, MatchesKey(text));
      match hit {
        case None => matches := None;
        case Some(Matches(at)) => matches := Some(at);
        case Some(_) => assert false;
      }
    }

    method GetOrder(order: int) returns (slots: Option<int>)
      requires cache.Valid()
      modifies cache
      ensures cache.Valid()
      ensures slots.Some? <==> Find(old(cache.recency), OwnedKey(owner, OrderKey(order))).Some?
      ensures slots.Some? ==>
                LastAdmitted(old(cache.admitted), OwnedKey(owner, OrderKey(order))) == Some(Order(slots.value))
      ensures cache.recency == Touched(old(cache.recency), OwnedKey(owner, OrderKey(order)), old(cache.clock))
    {
      var hit := cache.Get(owner, OrderKey(order));
      match hit {
        case None => slots := None;
        case Some(Order(at)) => slots := Some(at);
        case Some(_) => assert false;
      }
    }

    method GetHierarchy() returns (hierarchy: Option<int>)
      requires cache.Valid()
      modifies cache
      ensures cache.Valid()
      ensures hierarchy.Some? <==> Find(old(cache.recency), OwnedKey(owner, HierarchyKey)).Some?
      ensures hierarchy.Some? ==>
                LastAdmitted(old(cache.admitted), OwnedKey(owner, HierarchyKey)) == Some(Hierarchy(hierarchy.value))
      ensures cache.recency == Touched(old(cache.recency), OwnedKey(owner, HierarchyKey), old(cache.clock))
    {
      var hit := cache.Get(owner, HierarchyKey);
      match hit {
        case None => hierarchy := None;
        case Some(Hierarchy(at)) => hierarchy := Some(at);
        case Some(_) => assert false;
      }
    }

    method InsertPage(text: string, page: int, m: Measured, interference: seq<Round>)
      requires cache.Valid()
      modifies cache, cache.ledger
      ensures cache.Valid()
      ensures cache.admitted
           == Stored(old(cache.admitted), OwnedKey(owner, PageKey(text)), Page(page), m, cache.limit)
      ensures interference == [] ==>
                && cache.reserved == old(cache.reserved)
                && cache.recency == StoredAlone(
                     old(cache.recency), old(cache.ledger.Sizes()), OwnedKey(owner, PageKey(text)), Page(page),
                     m, old(cache.clock), cache.reserved, cache.limit)
    {
      cache.Insert(owner, PageKey(text), Page(page), m.allocations, m.overhead, interference);
    }

    method InsertMatches(text: string, matches: int, m: Measured, interference: seq<Round>)
      requires cache.Valid()
      modifies cache, cache.ledger
      ensures cache.Valid()
      ensures cache.admitted
           == Stored(old(cache.admitted), OwnedKey(owner, MatchesKey(text)), Matches(matches), m, cache.limit)
      ensures interference == [] ==>
                && cache.reserved == old(cache.reserved)
                && cache.recency == StoredAlone(
                     old(cache.recency), old(cache.ledger.Sizes()), OwnedKey(owner, MatchesKey(text)), Matches(matches),
                     m, old(cache.clock), cache.reserved, cache.limit)
    {
      cache.Insert(owner, MatchesKey(text), Matches(matches), m.allocations, m.overhead, interference);
    }

    method InsertOrder(order: int, slots: int, m: Measured, interference: seq<Round>)
      requires cache.Valid()
      modifies cache, cache.ledger
      ensures cache.Valid()
      ensures cache.admitted
           == Stored(old(cache.admitted), OwnedKey(owner, OrderKey(order)), Order(slots), m, cache.limit)
      ensures interference == [] ==>
                && cache.reserved == old(cache.reserved)
                && cache.recency == StoredAlone(
                     old(cache.recency), old(cache.ledger.Sizes()), OwnedKey(owner, OrderKey(order)), Order(slots),
                     m, old(cache.clock), cache.reserved, cache.limit)
    {
      cache.Insert(owner, OrderKey(order), Order(slots), m.allocations, m.overhead, interference);
    }

    method InsertHierarchy(hierarchy: int, m: Measured, interference: seq<Round>)
      requires cache.Valid()
      modifies cache, cache.ledger
      ensures cache.Valid()
      ensures cache.admitted
           == Stored(old(cache.admitted), OwnedKey(owner, HierarchyKey), Hierarchy(hierarchy), m, cache.limit)
      ensures interference == [] ==>
                && cache.reserved == old(cache.reserved)
                && cache.recency == StoredAlone(
                     old(cache.recency), old(cache.ledger.Sizes()), OwnedKey(owner, HierarchyKey), Hierarchy(hierarchy),
                     m, old(cache.clock), cache.reserved, cache.limit)
    {
      cache.Insert(owner, HierarchyKey, Hierarchy(hierarchy), m.allocations, m.overhead, interference);
    }

    /** The view of a new snapshot starts with the orders of an older one. */
    constructor FromOrders(
      owner: nat, cache: Cache, orders: seq<(int, int)>, ms: seq<Measured>, interference: seq<seq<Round>>)
      requires cache.Valid() && |ms| == |orders|
      modifies cache, cache.ledger
      ensures this.owner == owner && this.cache == cache && cache.Valid()
      ensures cache.admitted == StoredOrders(old(cache.admitted), owner, orders, ms, cache.limit)
    {
      this.owner, this.cache := owner, cache;
      new;
      InsertOrders(orders, ms, interference);
    }

    method InsertOrders(orders: seq<(int, int)>, ms: seq<Measured>, interference: seq<seq<Round>>)
      requires cache.Valid() && |ms| == |orders|
      modifies cache, cache.ledger
      ensures cache.Valid()
      ensures cache.admitted == StoredOrders(old(cache.admitted), owner, orders, ms, cache.limit)
    {
      hide Cache.Valid, Stored, StoredAlone;
      var k := 0;
      while k < |orders|
        invariant k <= |orders| && cache.Valid()
        invariant cache.admitted == StoredOrders(old(cache.admitted), owner, orders[..k], ms[..k], cache.limit)
      {
        assert orders[..k + 1][..k] == orders[..k] && ms[..k + 1][..k] == ms[..k];
        InsertOrder(orders[k].0, orders[k].1, ms[k], if k < |interference| then interference[k] else []);
        k := k + 1;
      }
      assert orders[..k] == orders && ms[..k] == ms;
    }

    /** A page that was just inserted, alone, is found again if and only if its own charge fits beside the
      * reservations. One over the limit leaves an earlier page in place. */
    method InsertAndGetPage(text: string, page: int, m: Measured) returns (found: Option<int>)
      requires cache.Valid()
      modifies cache, cache.ledger
      ensures cache.Valid()
      ensures Cost(m) > cache.limit ==>
                (found.Some? <==> Find(old(cache.recency), OwnedKey(owner, PageKey(text))).Some?)
      ensures Cost(m) > cache.limit && found.Some? ==>
                LastAdmitted(old(cache.admitted), OwnedKey(owner, PageKey(text))) == Some(Page(found.value))
      ensures Cost(m) <= cache.limit ==>
              var key := OwnedKey(owner, PageKey(text));
              var entry := Entry(Page(page), m.allocations, m.overhead, old(cache.clock));
              var sizes := AddSizes(
                             KeepSizes(old(cache.ledger.Sizes()), RemoveKey(old(cache.recency), key)), m.allocations);
              found ==
                if Charge([Item(key, entry)], sizes) + old(cache.reserved) <= cache.limit then Some(page) else None
    {
      hide Charge, AddSizes, KeepSizes, Find, Admitted, Touched, RemoveKey, Distinct, Recent, Split, Known, SumNats;
      AdmittedFound(
        cache.recency, cache.ledger.Sizes(), OwnedKey(owner, PageKey(text)),
        Entry(Page(page), m.allocations, m.overhead, cache.clock), cache.reserved, cache.limit);
      InsertPage(text, page, m, []);
      found := GetPage(text);
    }
  }
}
