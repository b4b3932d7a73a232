/** Writing an index: the postings of each shard are collected and sorted, and what is written reads
    back as the same index. */
module IndexWriter {
  import opened Common
  import opened IndexSections

  type Key = (byte, Bytes)

  type PostingMap = map<Key, set<nat>>

  // ---------- The order of keys ----------

  /** Byte strings in dictionary order. */
  predicate Less(x: Bytes, y: Bytes) {
    y != [] && (x == [] || x[0] < y[0] || (x[0] == y[0] && Less(x[1..], y[1..])))
  }

  predicate Before(a: Key, b: Key) {
    a.0 < b.0 || (a.0 == b.0 && Less(a.1, b.1))
  }

  function KeyOf(p: Posting): Key {
    (p.kind, p.key)
  }

  lemma {:induction false} LessTotal(x: Bytes, y: Bytes)
    ensures Less(x, y) || x == y || Less(y, x)
    ensures !(Less(x, y) && Less(y, x)) && !Less(x, x)
  {
    if x != [] {
      LessTotal(x[1..], x[1..]);
    }
    if x != [] && y != [] {
      LessTotal(x[1..], y[1..]);
      assert x[0] == y[0] && x[1..] == y[1..] ==> x == [x[0]] + x[1..] == [y[0]] + y[1..] == y;
    }
  }

  lemma {:induction false} LessTransitive(x: Bytes, y: Bytes, z: Bytes)
    requires Less(x, y) && Less(y, z)
    ensures Less(x, z)
  {
    if x != [] && x[0] == y[0] == z[0] {
      LessTransitive(x[1..], y[1..], z[1..]);
    }
  }

  lemma BeforeTransitive(a: Key, b: Key, c: Key)
    requires Before(a, b) && Before(b, c)
    ensures Before(a, c)
  {
    if a.0 == b.0 == c.0 {
      LessTransitive(a.1, b.1, c.1);
    }
  }

  ghost predicate Sorted(ps: seq<Posting>) {
    forall i, j :: 0 <= i < j < |ps| ==> Before(KeyOf(ps[i]), KeyOf(ps[j]))
  }

  function Insert(p: Posting, ps: seq<Posting>): seq<Posting> {
    if ps == [] || Before(KeyOf(p), KeyOf(ps[0])) then [p] + ps else [ps[0]] + Insert(p, ps[1..])
  }

  lemma {:induction false} InsertMembers(p: Posting, ps: seq<Posting>)
    ensures forall q :: q in Insert(p, ps) <==> q == p || q in ps
    ensures |Insert(p, ps)| == |ps| + 1
  {
    if ps == [] || Before(KeyOf(p), KeyOf(ps[0])) {
    } else {
      InsertMembers(p, ps[1..]);
    }
  }

  lemma SortedCons(p: Posting, ps: seq<Posting>)
    requires Sorted(ps) && forall q :: q in ps ==> Before(KeyOf(p), KeyOf(q))
    ensures Sorted([p] + ps)
  {
  }

  lemma {:induction false} InsertSorted(p: Posting, ps: seq<Posting>)
    requires Sorted(ps) && forall q :: q in ps ==> KeyOf(q) != KeyOf(p)
    ensures Sorted(Insert(p, ps))
  {
    if ps == [] {
    } else if Before(KeyOf(p), KeyOf(ps[0])) {
      forall q | q in ps ensures Before(KeyOf(p), KeyOf(q)) {
        if q != ps[0] { BeforeTransitive(KeyOf(p), KeyOf(ps[0]), KeyOf(q)); }
      }
      SortedCons(p, ps);
    } else {
      assert ps[0] in ps;
      LessTotal(p.key, ps[0].key);
      InsertSorted(p, ps[1..]);
      InsertMembers(p, ps[1..]);
      SortedCons(ps[0], Insert(p, ps[1..]));
    }
  }

  // ---------- The postings of one shard ----------

  /** The list has exactly the entries of the map, in the order of their keys. */
  ghost predicate Lists(ps: seq<Posting>, m: PostingMap) {
    && Sorted(ps)
    && (forall p :: p in ps <==> KeyOf(p) in m && m[KeyOf(p)] == p.slots)
  }

  lemma EntryListed(ps: seq<Posting>, m: PostingMap, k: Key)
    requires Lists(ps, m) && k in m
    ensures Posting(k.0, k.1, m[k]) in ps && ps != []
  {
    var p := Posting(k.0, k.1, m[k]);
    assert p in ps;
  }

  lemma {:induction false} ListsCount(ps: seq<Posting>, m: PostingMap)
    requires Lists(ps, m)
    ensures |ps| == |m|
    decreases |ps|
  {
    if ps == [] {
      forall k ensures k !in m {
        if k in m { EntryListed(ps, m, k); }
      }
      assert m == map[];
    } else {
      assert ps[0] in ps;
      ListsRest(ps, m);
      ListsCount(ps[1..], m - {KeyOf(ps[0])});
      assert (m - {KeyOf(ps[0])}).Keys == m.Keys - {KeyOf(ps[0])};
    }
  }

  /** A map has one such list. */
  lemma {:induction false} ListsOnce(x: seq<Posting>, y: seq<Posting>, m: PostingMap)
    requires Lists(x, m) && Lists(y, m)
    ensures x == y
    decreases |x|
  {
    ListsCount(x, m);
    ListsCount(y, m);
    if x != [] {
      assert x[0] in x;
      assert y[0] in y && y[0] in x;
      Least(x, y[0]);
      Least(y, x[0]);
      LessTotal(x[0].key, y[0].key);
      ListsRest(x, m);
      ListsRest(y, m);
      ListsOnce(x[1..], y[1..], m - {KeyOf(x[0])});
      assert x == [x[0]] + x[1..] && y == [y[0]] + y[1..];
    }
  }

  lemma Least(ps: seq<Posting>, p: Posting)
    requires Sorted(ps) && p in ps
    ensures p == ps[0] || Before(KeyOf(ps[0]), KeyOf(p))
  {
  }

  lemma ListsRest(ps: seq<Posting>, m: PostingMap)
    requires Lists(ps, m) && ps != []
    ensures Lists(ps[1..], m - {KeyOf(ps[0])})
  {
    var first := ps[0];
    assert first in ps;
    forall p ensures p in ps[1..] <==> p in ps && KeyOf(p) != KeyOf(first) {
      if p in ps[1..] {
        var i :| 0 <= i < |ps[1..]| && ps[1..][i] == p;
        assert ps[i + 1] == p && Before(KeyOf(ps[0]), KeyOf(ps[i + 1]));
        LessTotal(first.key, first.key);
      }
    }
  }

  /** Sorting whatever order the entries come in. */
  ghost function Listing(m: PostingMap): (ps: seq<Posting>)
    ensures Lists(ps, m)
    decreases |m|
  {
    if m == map[] then []
    else
      var k :| k in m;
      assert (m - {k}).Keys == m.Keys - {k};
      var rest := Listing(m - {k});
      InsertSorted(Posting(k.0, k.1, m[k]), rest);
      InsertMembers(Posting(k.0, k.1, m[k]), rest);
      Insert(Posting(k.0, k.1, m[k]), rest)
  }

  function InShard(f: Format, postings: PostingMap, shard: nat): PostingMap {
    map k | k in postings && f.partition(k.0, k.1) == shard :: postings[k]
  }

  lemma Inhabited(keys: set<Key>)
    requires keys != {}
    ensures exists k :: k in keys
  {
    var empty: set<Key> := {};
    assert (forall k :: k !in keys) ==> keys == empty;
  }

  /** Collect the entries of a shard in any order, and sort them. */
  method Collect(f: Format, postings: PostingMap, shard: nat) returns (group: seq<Posting>)
    ensures group == Listing(InShard(f, postings, shard))
  {
    var entries := InShard(f, postings, shard);
    group := [];
    var rest := entries.Keys;
    while rest != {}
      invariant rest <= entries.Keys
      invariant Lists(group, entries - rest)
      decreases rest
    {
      Inhabited(rest);
      var k :| k in rest;
      var p := Posting(k.0, k.1, entries[k]);
      InsertSorted(p, group);
      InsertMembers(p, group);
      group := Insert(p, group);
      rest := rest - {k};
    }
    assert entries - rest == entries;
    ListsOnce(group, Listing(entries), entries);
  }

  // ---------- All shards ----------

  ghost function Grouped(f: Format, postings: PostingMap): (groups: seq<seq<Posting>>)
    ensures |groups| == SHARDS
  {
    seq(SHARDS, shard requires 0 <= shard => Listing(InShard(f, postings, shard)))
  }

  /** A valid index over `count` entries, as the snapshot holds it. */
  ghost predicate Indexed(f: Format, count: nat, index: Index) {
    && count < 0x1_0000_0000 && |index.postings| < 0x1_0000_0000
    && SlotsBelow(index.live, count) && index.ties <= index.live
    && IsOrder(index.nameOrder, index.live) && IsOrder(index.pathOrder, index.live)
    && (forall k :: k in index.postings ==>
          Restorable(f, k.0, k.1) && f.partition(k.0, k.1) < SHARDS && SlotsBelow(index.postings[k], count))
    && DIRECTORIES in index.postings && SYMLINKS in index.postings
  }

  ghost function AsWritten(f: Format, index: Index): Written {
    Written(index, Grouped(f, index.postings))
  }

  /** Every posting of the first n shards, once. */
  lemma {:induction false} GroupedPrefix(f: Format, postings: PostingMap, n: nat)
    requires n <= SHARDS
    ensures var ps := Postings(Grouped(f, postings)[..n]);
            && DistinctKeys(ps)
            && forall p :: p in ps <==>
                 KeyOf(p) in postings && postings[KeyOf(p)] == p.slots && f.partition(p.kind, p.key) < n
  {
    var groups := Grouped(f, postings);
    if n > 0 {
      GroupedPrefix(f, postings, n - 1);
      PostingsMore(groups, n - 1);
      var before, group := Postings(groups[..n - 1]), groups[n - 1];
      forall p ensures p in group <==>
                KeyOf(p) in postings && postings[KeyOf(p)] == p.slots && f.partition(p.kind, p.key) == n - 1 {
        assert KeyOf(p) in InShard(f, postings, n - 1) <==> KeyOf(p) in postings && f.partition(p.kind, p.key) == n - 1;
      }
      SortedDistinct(group);
      DistinctJoined(before, group);
    }
  }

  lemma SortedDistinct(ps: seq<Posting>)
    requires Sorted(ps)
    ensures DistinctKeys(ps)
  {
    forall i, j | 0 <= i < j < |ps| ensures (ps[i].kind, ps[i].key) != (ps[j].kind, ps[j].key) {
      assert Before(KeyOf(ps[i]), KeyOf(ps[j]));
      LessTotal(ps[i].key, ps[j].key);
    }
  }

  lemma DistinctJoined(x: seq<Posting>, y: seq<Posting>)
    requires DistinctKeys(x) && DistinctKeys(y)
    requires forall p, q :: p in x && q in y ==> KeyOf(p) != KeyOf(q)
    ensures DistinctKeys(x + y)
  {
    var all := x + y;
    forall i, j | 0 <= i < j < |all| ensures (all[i].kind, all[i].key) != (all[j].kind, all[j].key) {
      if i < |x| <= j {
        assert x[i] in x && y[j - |x|] in y && KeyOf(x[i]) != KeyOf(y[j - |x|]);
      }
    }
  }

  /** The collected groups are an enumeration that the reader accepts. */
  lemma GroupedWritable(f: Format, count: nat, index: Index)
    requires Indexed(f, count, index)
    ensures Writable(f, count, AsWritten(f, index))
  {
    hide IsOrder, SlotsBelow, Adds, PostingsOk, Listing, Postings, AllOk, KeysShort;
    GroupedPostings(f, count, index);
    forall shard | 0 <= shard < SHARDS
      ensures var group := Grouped(f, index.postings)[shard];
              |group| < 0x1_0000_0000 && KeysShort(group) && AllOk(f, shard, count, group)
    {
      GroupOk(f, count, index, shard);
    }
  }

  lemma GroupedPostings(f: Format, count: nat, index: Index)
    requires Indexed(f, count, index)
    ensures var ps := Postings(Grouped(f, index.postings)); Adds(map[], ps, index.postings) && PostingsOk(f, count, ps)
  {
    hide IsOrder, SlotsBelow, Adds, Listing, Postings;
    var groups := Grouped(f, index.postings);
    GroupedPrefix(f, index.postings, SHARDS);
    assert groups[..SHARDS] == groups;
    var ps := Postings(groups);
    GroupedAdds(index.postings, ps);
    forall i | 0 <= i < |ps|
      ensures Restorable(f, ps[i].kind, ps[i].key) && f.partition(ps[i].kind, ps[i].key) < SHARDS
              && SlotsBelow(ps[i].slots, count)
    {
      assert ps[i] in ps && KeyOf(ps[i]) in index.postings;
    }
  }

  lemma GroupedAdds(postings: PostingMap, ps: seq<Posting>)
    requires DistinctKeys(ps)
    requires forall p :: p in ps ==> KeyOf(p) in postings && postings[KeyOf(p)] == p.slots
    requires forall k :: k in postings ==> Posting(k.0, k.1, postings[k]) in ps
    ensures Adds(map[], ps, postings)
  {
    forall i | 0 <= i < |ps|
      ensures (ps[i].kind, ps[i].key) in postings && postings[(ps[i].kind, ps[i].key)] == ps[i].slots
    {
      assert ps[i] in ps && KeyOf(ps[i]) in postings;
    }
    forall k | k in postings ensures exists i :: 0 <= i < |ps| && (ps[i].kind, ps[i].key) == k {
      var i :| 0 <= i < |ps| && ps[i] == Posting(k.0, k.1, postings[k]);
      assert (ps[i].kind, ps[i].key) == k;
    }
  }

  lemma GroupOk(f: Format, count: nat, index: Index, shard: nat)
    requires Indexed(f, count, index) && shard < SHARDS
    ensures var group := Listing(InShard(f, index.postings, shard));
            |group| < 0x1_0000_0000 && KeysShort(group) && AllOk(f, shard, count, group)
  {
    hide IsOrder, SlotsBelow, Listing;
    var m := InShard(f, index.postings, shard);
    var group := Listing(m);
    ListsCount(group, m);
    Fewer(m.Keys, index.postings.Keys);
    forall i | 0 <= i < |group|
      ensures |group[i].key| < 0x1_0000_0000 && PostingOk(f, shard, count, group[i])
    {
      assert group[i] in group && KeyOf(group[i]) in m && KeyOf(group[i]) in index.postings;
    }
  }

  lemma Fewer(x: set<Key>, y: set<Key>)
    requires x <= y
    ensures |x| <= |y|
  {
    assert y == x + (y - x);
  }

  /** Collect, sort and publish: the manifest names the live set, both orders and all shards. */
  method Write(f: Format, count: nat, index: Index) returns (root: Bytes)
    requires Indexed(f, count, index)
    ensures Writable(f, count, AsWritten(f, index)) && root == Root(f, count, AsWritten(f, index))
  {
    hide IsOrder, SlotsBelow, Writable, Indexed, Listing, Root;
    GroupedWritable(f, count, index);
    var groups := [];
    for shard := 0 to SHARDS
      invariant groups == Grouped(f, index.postings)[..shard]
    {
      var group := Collect(f, index.postings, shard);
      groups := groups + [group];
    }
    assert groups == Grouped(f, index.postings);
    WritableParts(f, count, AsWritten(f, index));
    root := WriteSections(f, count, Written(index, groups));
  }

  /** Reading back what was just written, from a store that keeps its sections. */
  method RoundTrip(f: Format, count: nat, index: Index) returns (restored: Option<Index>)
    requires Indexed(f, count, index) && f.codec.PrefixDecodable(count)
    requires Kept(f, index)
    ensures restored == Some(index)
  {
    hide IsOrder, SlotsBelow, Writable, Indexed, Listing, Root;
    var root := Write(f, count, index);
    WritableParts(f, count, AsWritten(f, index));
    ghost var read;
    restored, read := Read(f, root, count, Some(AsWritten(f, index)));
  }

  ghost predicate Kept(f: Format, index: Index) {
    var w := AsWritten(f, index);
    (forall i :: 0 <= i < |w.groups| ==> KeysShort(w.groups[i])) && f.store.Keeps(Sections(f, w))
  }

  /** An accepted index can be written again. */
  lemma AcceptedIsIndexed(f: Format, count: nat, index: Index, read: seq<Posting>)
    requires ValidIndex(f, count, index, read)
    requires count < 0x1_0000_0000 && |index.postings| < 0x1_0000_0000
    ensures Indexed(f, count, index)
  {
    hide IsOrder, SlotsBelow;
    forall k | k in index.postings
      ensures Restorable(f, k.0, k.1) && f.partition(k.0, k.1) < SHARDS && SlotsBelow(index.postings[k], count)
    {
      var i :| 0 <= i < |read| && (read[i].kind, read[i].key) == k;
    }
  }

  // ---------- Every index has an environment in which it is restored ----------

  /** One byte for each slot below `count`. */
  function Marks(slots: set<nat>, count: nat): Bytes {
    seq(count, i requires 0 <= i < count => if i in slots then 1 else 0)
  }

  function Unmark(input: Bytes, count: nat): Option<(set<nat>, nat)> {
    if |input| < count then None else Some(((set i: nat | i < count && input[i] == 1), count))
  }

  function MarkCodec(count: nat): Codec {
    Codec(slots => Marks(slots, count), input => Unmark(input, count))
  }

  lemma MarksDecodable(count: nat)
    ensures MarkCodec(count).PrefixDecodable(count)
  {
    forall s: set<nat>, rest: Bytes | SlotsBelow(s, count)
      ensures Unmark(Marks(s, count) + rest, count) == Some((s, |Marks(s, count)|))
    {
      var input := Marks(s, count) + rest;
      assert forall i: nat :: i < count ==> (input[i] == 1 <==> i in s);
      assert (set i: nat | i < count && input[i] == 1) == s;
    }
  }

  function IndexOf(parts: seq<Bytes>, content: Bytes): nat {
    if parts == [] || parts[0] == content then 0 else 1 + IndexOf(parts[1..], content)
  }

  lemma {:induction false} IndexOfPart(parts: seq<Bytes>, content: Bytes)
    requires content in parts
    ensures IndexOf(parts, content) < |parts| && parts[IndexOf(parts, content)] == content
  {
    if parts[0] != content { IndexOfPart(parts[1..], content); }
  }

  /** A store of these sections, with their numbers as descriptors. */
  function ListStore(parts: seq<Bytes>): Store {
    Store(
      content => LE(IndexOf(parts, content), DESCRIPTOR),
      descriptor => if FromLE(descriptor) < |parts| then Some(parts[FromLE(descriptor)]) else None)
  }

  lemma ListKeeps(parts: seq<Bytes>)
    requires |parts| <= Power256(DESCRIPTOR)
    ensures ListStore(parts).Keeps(parts)
  {
    forall i | 0 <= i < |parts|
      ensures FromLE(LE(IndexOf(parts, parts[i]), DESCRIPTOR)) == IndexOf(parts, parts[i]) < |parts|
      ensures parts[IndexOf(parts, parts[i])] == parts[i]
    {
      IndexOfPart(parts, parts[i]);
      LERound(IndexOf(parts, parts[i]), DESCRIPTOR);
    }
  }

  lemma {:induction false} PowerAtLeast(width: nat)
    requires width >= 5
    ensures Power256(width) >= 0x100_0000_0000
    decreases width
  {
    if width > 5 {
      PowerAtLeast(width - 1);
    } else {
      Widths();
    }
  }

  /** Grouping looks at the shard function alone. */
  lemma GroupedAlike(f: Format, g: Format, postings: PostingMap)
    requires f.partition == g.partition
    ensures Grouped(f, postings) == Grouped(g, postings)
  {
    hide Listing;
    forall shard | 0 <= shard < SHARDS ensures Grouped(f, postings)[shard] == Grouped(g, postings)[shard] {
      assert InShard(f, postings, shard) == InShard(g, postings, shard);
    }
  }

  lemma FewSections(f: Format, count: nat, index: Index)
    requires Indexed(f, count, index)
    ensures forall i :: 0 <= i < SHARDS ==> KeysShort(Grouped(f, index.postings)[i])
    ensures |Sections(f, AsWritten(f, index))| <= Power256(DESCRIPTOR)
  {
    hide IsOrder, SlotsBelow, Listing, Power256, Grouped, Adds, Writable;
    GroupedWritable(f, count, index);
    var w := AsWritten(f, index);
    WritableParts(f, count, w);
    SectionParts(f, w, Sections(f, w));
    OrderCount(index.nameOrder, index.live);
    OrderCount(index.pathOrder, index.live);
    SetBound(index.live, count);
    PowerAtLeast(DESCRIPTOR);
  }

  /** For every index, however the keys are distributed and validated, there are a codec and a store that meet
    * what the round trip asks of them. */
  lemma SomeFormat(f: Format, count: nat, index: Index) returns (g: Format)
    requires Indexed(f, count, index)
    ensures g.partition == f.partition && g.utf8 == f.utf8
    ensures Indexed(g, count, index) && g.codec.PrefixDecodable(count) && Kept(g, index)
  {
    hide Indexed, Listing, Power256, Grouped, KeysShort, Sections, Codec.PrefixDecodable, Store.Keeps;
    hide ListStore, MarkCodec;
    var plain := Format(MarkCodec(count), f.store, f.partition, f.utf8);
    IndexedAlike(f, plain, count, index);
    MarksDecodable(count);
    FewSections(plain, count, index);
    var parts := Sections(plain, AsWritten(plain, index));
    ListKeeps(parts);
    g := plain.(store := ListStore(parts));
    IndexedAlike(plain, g, count, index);
    GroupedAlike(plain, g, index.postings);
    SectionsAlike(plain, g, AsWritten(plain, index));
  }

  lemma IndexedAlike(f: Format, g: Format, count: nat, index: Index)
    requires f.partition == g.partition && f.utf8 == g.utf8 && Indexed(f, count, index)
    ensures Indexed(g, count, index)
  {
    hide IsOrder, SlotsBelow;
  }

  /** The sections depend on the codec alone. */
  lemma SectionsAlike(f: Format, g: Format, w: Written)
    requires f.codec == g.codec && forall i :: 0 <= i < |w.groups| ==> KeysShort(w.groups[i])
    ensures Sections(f, w) == Sections(g, w)
  {
  }

  /** The smallest directory there is: one entry without any content. */
  lemma OneDirectory(f: Format)
    requires f.partition(4, []) < SHARDS && f.partition(5, []) < SHARDS
    ensures Indexed(f, 1, Index({0}, {}, [[0]], [[0]], map[DIRECTORIES := {0}, SYMLINKS := {}]))
  {
    assert Flatten([[0]]) == [0] by { assert [[0]][..0] == []; }
    assert |map[DIRECTORIES := {0}, SYMLINKS := {}]| <= 2;
  }
}
