/** The partitioned on-disk form of a search index: a manifest of content-addressed
    sections for the live set, two slot orders in blocks, and 256 posting shards.
    Whatever `Read` accepts is a valid index, and what was written comes back. */
module IndexSections {
  import opened Common

  const SHARDS := 256
  const ORDER_BLOCK := 4096
  const DESCRIPTOR := 40
  const MAX_EXTENSION := 1024
  const MAGIC: Bytes := [65, 80, 70, 83, 69, 67, 48, 52]

  datatype Posting = Posting(kind: byte, key: Bytes, slots: set<nat>)

  datatype Index = Index(
    live: set<nat>, ties: set<nat>, nameOrder: seq<seq<nat>>, pathOrder: seq<seq<nat>>,
        postings: map<(byte, Bytes), set<nat>>)

  // ---------- What the codec is built from ----------

  /** The bitmap codec: the encoding of a set of slots below `count` can be read back from the front of any
    * input. */
  datatype Codec = Codec(encode: set<nat> -> Bytes, decode: Bytes -> Option<(set<nat>, nat)>)
  {
    ghost predicate PrefixDecodable(count: nat) {
      && (forall s, rest :: SlotsBelow(s, count) ==> decode(encode(s) + rest) == Some((s, |encode(s)|)))
      && (forall input :: decode(input).Some? ==> decode(input).value.1 <= |input|)
    }
  }

  /** Content-addressed sections: publishing returns a descriptor, under which a section can be opened. */
  datatype Store = Store(publish: Bytes -> Bytes, open: Bytes -> Option<Bytes>)
  {
    /** Each of these sections can be opened under its descriptor. No store keeps all contents there are,
      * as descriptors have a fixed length. */
    ghost predicate Keeps(parts: seq<Bytes>) {
      forall i :: 0 <= i < |parts| ==>
        |publish(parts[i])| == DESCRIPTOR && open(publish(parts[i])) == Some(parts[i])
    }
  }

  /** The environment of one index: its codec, section store, shard function and
      UTF-8 validator. */
  datatype Format = Format(codec: Codec, store: Store, partition: (byte, Bytes) -> nat, utf8: Bytes -> bool)

  // ---------- Little-endian numbers ----------

  function Power256(width: nat): nat {
    if width == 0 then 1 else 256 * Power256(width - 1)
  }

  function LE(n: nat, width: nat): (r: Bytes)
    ensures |r| == width
    decreases width
  {
    if width == 0 then [] else [(n % 256) as byte] + LE(n / 256, width - 1)
  }

  function FromLE(b: Bytes): nat {
    if b == [] then 0 else b[0] as nat + 256 * FromLE(b[1..])
  }

  lemma {:induction false} LERound(n: nat, width: nat)
    requires n < Power256(width)
    ensures FromLE(LE(n, width)) == n
    decreases width
  {
    if width > 0 {
      LERound(n / 256, width - 1);
      assert LE(n, width)[1..] == LE(n / 256, width - 1);
    }
  }

  lemma Widths()
    ensures Power256(4) == 0x1_0000_0000 && Power256(8) == 0x1_0000_0000_0000_0000
  {
    assert Power256(2) == 0x1_0000;
    assert Power256(4) == 0x1_0000_0000;
    assert Power256(6) == 0x1_0000_0000_0000;
  }

  // ---------- Orders ----------

  function Flatten(blocks: seq<seq<nat>>): seq<nat> {
    if blocks == [] then [] else Flatten(blocks[..|blocks| - 1]) + blocks[|blocks| - 1]
  }

  ghost predicate Distinct(s: seq<nat>) {
    forall i, j :: 0 <= i < j < |s| ==> s[i] != s[j]
  }

  /** Blocks of the right size that list every live slot exactly once. */
  ghost predicate IsOrder(blocks: seq<seq<nat>>, live: set<nat>) {
    && (forall i :: 0 <= i < |blocks| ==> 0 < |blocks[i]| <= ORDER_BLOCK)
    && Distinct(Flatten(blocks))
    && (forall slot :: slot in Flatten(blocks) <==> slot in live)
  }

  function EncodeSlots(slots: seq<nat>): Bytes {
    if slots == [] then [] else EncodeSlots(slots[..|slots| - 1]) + LE(slots[|slots| - 1], 4)
  }

  lemma {:induction false} EncodeSlotsLength(slots: seq<nat>)
    ensures |EncodeSlots(slots)| == 4 * |slots|
    decreases |slots|
  {
    if slots != [] { EncodeSlotsLength(slots[..|slots| - 1]); }
  }

  lemma {:induction false} SlotBytes(slots: seq<nat>, i: nat)
    requires i < |slots|
    ensures |EncodeSlots(slots)| == 4 * |slots|
    ensures EncodeSlots(slots)[4 * i..4 * i + 4] == LE(slots[i], 4)
    decreases |slots|
  {
    EncodeSlotsLength(slots);
    var front, last := slots[..|slots| - 1], LE(slots[|slots| - 1], 4);
    EncodeSlotsLength(front);
    if i < |front| { SlotBytes(front, i); }
    SliceAppend(EncodeSlots(front), last, i);
  }

  lemma SliceAppend(x: Bytes, y: Bytes, i: nat)
    requires |y| == 4 && 4 * i + 4 <= |x| + 4
    ensures 4 * i + 4 <= |x| ==> (x + y)[4 * i..4 * i + 4] == x[4 * i..4 * i + 4]
    ensures 4 * i == |x| ==> (x + y)[4 * i..4 * i + 4] == y
  {
  }

  lemma SlotAt(slots: seq<nat>, i: nat)
    requires i < |slots| && slots[i] < 0x1_0000_0000
    ensures |EncodeSlots(slots)| == 4 * |slots|
    ensures FromLE(EncodeSlots(slots)[4 * i..4 * i + 4]) == slots[i]
  {
    SlotBytes(slots, i);
    Widths();
    LERound(slots[i], 4);
  }

  /** A block of the right size whose slots remain to be read. */
  ghost predicate Due(block: seq<nat>, remaining: set<nat>) {
    && 0 < |block| <= ORDER_BLOCK && Distinct(block)
    && forall i :: 0 <= i < |block| ==> block[i] in remaining && block[i] < 0x1_0000_0000
  }

  /** Reading one block consumes its slots from those that remain. */
  method ReadBlock(bytes: Bytes, remaining: set<nat>, ghost written: Option<seq<nat>>)
    returns (ok: bool, slots: seq<nat>, rest: set<nat>)
    requires written.Some? ==> bytes == EncodeSlots(written.value) && Due(written.value, remaining)
    ensures ok ==> 0 < |slots| <= ORDER_BLOCK && Consumed(remaining, slots, rest)
    ensures written.Some? ==> ok && slots == written.value
  {
    hide Consumed, FromLE, EncodeSlots;
    slots, rest := [], remaining;
    ConsumeNone(remaining);
    if written.Some? { EncodeSlotsLength(written.value); }
    if bytes == [] || |bytes| > ORDER_BLOCK * 4 || |bytes| % 4 != 0 { return false, slots, rest; }
    var i := 0;
    while i < |bytes| / 4
      invariant i == |slots| <= |bytes| / 4
      invariant Consumed(remaining, slots, rest)
      invariant written.Some? ==> slots == written.value[..i]
    {
      var slot := FromLE(bytes[4 * i..4 * i + 4]);
      if written.Some? {
        SlotAt(written.value, i);
        assert slot == written.value[i] && slot !in written.value[..i];
        ConsumedRest(remaining, slots, rest, slot);
      }
      if slot !in rest { return false, slots, rest; }
      ConsumeOne(remaining, slots, rest, slot);
      rest := rest - {slot};
      slots := slots + [slot];
      i := i + 1;
    }
    ok := true;
  }

  /** `slots` are distinct slots taken out of `remaining`, which leaves `rest`. */
  ghost predicate Consumed(remaining: set<nat>, slots: seq<nat>, rest: set<nat>) {
    && Distinct(slots) && |rest| + |slots| == |remaining|
    && (forall slot :: slot in remaining <==> slot in rest || slot in slots)
    && (forall slot :: slot in slots ==> slot !in rest)
  }

  lemma ConsumeNone(remaining: set<nat>)
    ensures Consumed(remaining, [], remaining)
  {
  }

  lemma ConsumedRest(remaining: set<nat>, slots: seq<nat>, rest: set<nat>, slot: nat)
    requires Consumed(remaining, slots, rest) && slot in remaining && slot !in slots
    ensures slot in rest
  {
  }

  lemma ConsumeOne(remaining: set<nat>, slots: seq<nat>, rest: set<nat>, slot: nat)
    requires Consumed(remaining, slots, rest) && slot in rest
    ensures Consumed(remaining, slots + [slot], rest - {slot})
  {
  }

  function EncodeBlocks(blocks: seq<seq<nat>>): seq<Bytes> {
    seq(|blocks|, i requires 0 <= i < |blocks| => EncodeSlots(blocks[i]))
  }

  ghost predicate SlotsBelow(live: set<nat>, bound: nat) {
    forall slot :: slot in live ==> slot < bound
  }

  /** An order is accepted exactly as a permutation of the live slots. */
  method ReadOrder(parts: seq<Bytes>, live: set<nat>, ghost written: Option<seq<seq<nat>>>)
    returns (ok: bool, order: seq<seq<nat>>)
    requires written.Some? ==>
               parts == EncodeBlocks(written.value) && IsOrder(written.value, live) && SlotsBelow(live, 0x1_0000_0000)
    ensures ok ==> IsOrder(order, live) && |order| == |parts|
    ensures written.Some? ==> ok && order == written.value
  {
    hide Consumed, Flatten, IsOrder, SlotsBelow, Due, EncodeSlots, EncodeBlocks, Distinct;
    if written.Some? { EncodeBlocksAre(written.value); }
    order := [];
    var remaining, total := live, 0;
    NothingRead(live);
    var i := 0;
    while i < |parts|
      invariant i == |order| <= |parts|
      invariant forall j :: 0 <= j < i ==> 0 < |order[j]| <= ORDER_BLOCK
      invariant Consumed(live, Flatten(order), remaining) && total == |Flatten(order)|
      invariant written.Some? ==> order == written.value[..i]
    {
      if written.Some? { BlockOf(written.value, i, live, remaining); }
      var accepted, slots, rest :=
          ReadBlock(parts[i], remaining, if written.Some? then Some(written.value[i]) else None);
      if !accepted { return false, order; }
      FlattenMore(order, slots);
      ConsumeMore(live, Flatten(order), remaining, slots, rest);
      total := total + |slots|;
      order, remaining := order + [slots], rest;
      i := i + 1;
    }
    if written.Some? { assert order == written.value; Covered(live, order, remaining); }
    if total != |live| { return false, order; }
    OrderRead(live, order, remaining);
    ok := true;
  }

  lemma EncodeBlocksAre(blocks: seq<seq<nat>>)
    ensures |EncodeBlocks(blocks)| == |blocks|
    ensures forall i :: 0 <= i < |blocks| ==> EncodeBlocks(blocks)[i] == EncodeSlots(blocks[i])
  {
  }

  lemma NothingRead(live: set<nat>)
    ensures Flatten([]) == [] && Consumed(live, Flatten([]), live)
  {
  }

  lemma FlattenMore(order: seq<seq<nat>>, slots: seq<nat>)
    ensures Flatten(order + [slots]) == Flatten(order) + slots
  {
    assert (order + [slots])[..|order|] == order;
  }

  lemma OrderRead(live: set<nat>, order: seq<seq<nat>>, rest: set<nat>)
    requires Consumed(live, Flatten(order), rest) && |Flatten(order)| == |live|
    requires forall j :: 0 <= j < |order| ==> 0 < |order[j]| <= ORDER_BLOCK
    ensures IsOrder(order, live)
  {
    Exhausted(live, Flatten(order), rest);
  }

  lemma ConsumeMore(live: set<nat>, before: seq<nat>, remaining: set<nat>, slots: seq<nat>, rest: set<nat>)
    requires Consumed(live, before, remaining) && Consumed(remaining, slots, rest)
    ensures Consumed(live, before + slots, rest)
  {
    var all := before + slots;
    forall slot: nat ensures slot in all <==> slot in before || slot in slots {
      if slot in before { var i :| 0 <= i < |before| && before[i] == slot; assert all[i] == slot; }
      if slot in slots { var i :| 0 <= i < |slots| && slots[i] == slot; assert all[|before| + i] == slot; }
    }
    forall i, j | 0 <= i < j < |all| ensures all[i] != all[j] {
      if i < |before| <= j { assert slots[j - |before|] in slots && before[i] in before; }
    }
  }

  /** Nothing remains once as many distinct slots as there are live ones were consumed. */
  lemma Exhausted(live: set<nat>, slots: seq<nat>, rest: set<nat>)
    requires Consumed(live, slots, rest) && |slots| == |live|
    ensures forall slot :: slot in slots <==> slot in live
  {
    Emptied(rest);
  }

  lemma Emptied(rest: set<nat>)
    requires |rest| == 0
    ensures forall slot :: slot !in rest
  {
    assert rest == {};
  }

  lemma Covered(live: set<nat>, order: seq<seq<nat>>, rest: set<nat>)
    requires Consumed(live, Flatten(order), rest) && IsOrder(order, live)
    ensures |Flatten(order)| == |live|
  {
    assert forall slot :: slot !in rest;
    assert rest == {};
  }

  /** A written block is distinct and still unconsumed when its turn comes. */
  lemma BlockOf(blocks: seq<seq<nat>>, i: nat, live: set<nat>, remaining: set<nat>)
    requires i < |blocks| && IsOrder(blocks, live) && Consumed(live, Flatten(blocks[..i]), remaining)
             && SlotsBelow(live, 0x1_0000_0000)
    ensures Due(blocks[i], remaining)
  {
    FlattenPrefix(blocks, i + 1);
    assert blocks[..i + 1][..i] == blocks[..i];
    PartDue(Flatten(blocks), Flatten(blocks[..i]), blocks[i], live, remaining);
  }

  lemma PartDue(all: seq<nat>, before: seq<nat>, block: seq<nat>, live: set<nat>, remaining: set<nat>)
    requires before + block <= all && Distinct(all) && 0 < |block| <= ORDER_BLOCK
    requires (forall slot :: slot in all <==> slot in live) && SlotsBelow(live, 0x1_0000_0000)
    requires Consumed(live, before, remaining)
    ensures Due(block, remaining)
  {
    var through := before + block;
    assert forall j :: 0 <= j < |through| ==> through[j] == all[j];
    forall k | 0 <= k < |block| ensures block[k] in remaining && block[k] < 0x1_0000_0000 {
      assert through[|before| + k] == block[k] && all[|before| + k] in all;
      forall j | 0 <= j < |before| ensures before[j] != block[k] {
        assert through[j] == before[j];
      }
      assert block[k] in live && block[k] !in before;
    }
    forall j, k | 0 <= j < k < |block| ensures block[j] != block[k] {
      assert through[|before| + j] == block[j] && through[|before| + k] == block[k];
    }
  }

  lemma {:induction false} FlattenPrefix(blocks: seq<seq<nat>>, n: nat)
    requires n <= |blocks|
    ensures Flatten(blocks[..n]) <= Flatten(blocks)
    decreases |blocks|
  {
    if n < |blocks| {
      FlattenPrefix(blocks[..|blocks| - 1], n);
      assert blocks[..|blocks| - 1][..n] == blocks[..n];
    } else {
      assert blocks[..n] == blocks;
    }
  }

  // ---------- Posting shards ----------

  function EncodePosting(codec: Codec, p: Posting): Bytes
    requires |p.key| < 0x1_0000_0000
  {
    [p.kind] + LE(|p.key|, 4) + p.key + codec.encode(p.slots)
  }

  function EncodePostings(codec: Codec, ps: seq<Posting>): Bytes
    requires KeysShort(ps)
  {
    if ps == [] then [] else EncodePosting(codec, ps[0]) + EncodePostings(codec, ps[1..])
  }

  function EncodeGroup(codec: Codec, ps: seq<Posting>): Bytes
    requires KeysShort(ps)
  {
    LE(|ps|, 4) + EncodePostings(codec, ps)
  }

  /** The keys each kind of posting may have: trigrams, single bytes, byte pairs,
      extensions, and the two flag groups. */
  predicate Restorable(f: Format, kind: byte, key: Bytes) {
    (kind == 0 && |key| == 3) || (kind == 1 && |key| == 1) || (kind == 2 && |key| == 2)
    || (kind == 3 && |key| <= MAX_EXTENSION && f.utf8(key)) || ((kind == 4 || kind == 5) && key == [])
  }

  ghost predicate PostingOk(f: Format, shard: nat, count: nat, p: Posting) {
    Restorable(f, p.kind, p.key) && f.partition(p.kind, p.key) == shard && SlotsBelow(p.slots, count)
  }

  /** `more` adds to `postings` exactly the postings of a list whose keys are new and distinct. */
  ghost predicate Adds(postings: map<(byte, Bytes), set<nat>>, ps: seq<Posting>, more: map<(byte, Bytes), set<nat>>) {
    && (forall i :: 0 <= i < |ps| ==> (ps[i].kind, ps[i].key) !in postings)
    && (forall i, j :: 0 <= i < j < |ps| ==> (ps[i].kind, ps[i].key) != (ps[j].kind, ps[j].key))
    && (forall i :: 0 <= i < |ps| ==> (ps[i].kind, ps[i].key) in more && more[(ps[i].kind, ps[i].key)] == ps[i].slots)
    && (forall k :: k in postings ==> k in more && more[k] == postings[k])
    && (forall k :: k in more ==> k in postings || exists i :: 0 <= i < |ps| && (ps[i].kind, ps[i].key) == k)
  }

  /** One posting at `start`: its fields and the position after it. */
  method ReadPosting(f: Format, bytes: Bytes, start: nat, shard: nat, count: nat, ghost written: Option<Posting>,
    ghost tail: Bytes)
    returns (ok: bool, p: Posting, end: nat)
    requires f.codec.PrefixDecodable(count) && start <= |bytes|
    requires written.Some? ==> (
      |written.value.key| < 0x1_0000_0000 && PostingOk(f, shard, count, written.value)
      && bytes[start..] == EncodePosting(f.codec, written.value) + tail)
    ensures ok ==> f.partition(p.kind, p.key) == shard && SlotsBelow(p.slots, count) && start < end <= |bytes|
    ensures written.Some? ==> ok && p == written.value && bytes[end..] == tail
  {
    p, end := Posting(0, [], {}), start;
    if written.Some? { PostingBytes(f.codec, bytes, start, count, written.value, tail); }
    if start + 5 > |bytes| { return false, p, end; }
    var kind := bytes[start];
    var length := FromLE(bytes[start + 1..start + 5]);
    if start + 5 + length > |bytes| { return false, p, end; }
    var key := bytes[start + 5..start + 5 + length];
    if f.partition(kind, key) != shard { return false, p, end; }
    var bitmap := f.codec.decode(bytes[start + 5 + length..]);
    if bitmap.None? || exists slot :: slot in bitmap.value.0 && slot >= count { return false, p, end; }
    ok, p, end := true, Posting(kind, key, bitmap.value.0), start + 5 + length + bitmap.value.1;
  }

  /** The parts of a concatenation, at any offset into an input. */
  lemma Parts(bytes: Bytes, start: nat, first: byte, word: Bytes, key: Bytes, tail: Bytes)
    requires start <= |bytes| && |word| == 4 && bytes[start..] == [first] + word + key + tail
    ensures |bytes| == start + 5 + |key| + |tail| && bytes[start] == first
    ensures bytes[start + 1..start + 5] == word
    ensures bytes[start + 5..start + 5 + |key|] == key
    ensures bytes[start + 5 + |key|..] == tail
  {
    var rest := bytes[start..];
    assert rest[0] == first && rest[1..5] == word && rest[5..5 + |key|] == key && rest[5 + |key|..] == tail;
  }

  lemma PostingBytes(codec: Codec, bytes: Bytes, start: nat, count: nat, p: Posting, tail: Bytes)
    requires codec.PrefixDecodable(count) && start <= |bytes| && |p.key| < 0x1_0000_0000
    requires bytes[start..] == EncodePosting(codec, p) + tail && SlotsBelow(p.slots, count)
    ensures start + 5 + |p.key| <= |bytes| && bytes[start] == p.kind
    ensures FromLE(bytes[start + 1..start + 5]) == |p.key|
    ensures bytes[start + 5..start + 5 + |p.key|] == p.key
    ensures codec.decode(bytes[start + 5 + |p.key|..]) == Some((p.slots, |codec.encode(p.slots)|))
    ensures start + 5 + |p.key| + |codec.encode(p.slots)| <= |bytes|
    ensures bytes[start + 5 + |p.key| + |codec.encode(p.slots)|..] == tail
  {
    KeyLength(|p.key|);
    var bitmap := codec.encode(p.slots);
    assert bytes[start..] == [p.kind] + LE(|p.key|, 4) + p.key + (bitmap + tail);
    Parts(bytes, start, p.kind, LE(|p.key|, 4), p.key, bitmap + tail);
    var at := start + 5 + |p.key|;
    assert bytes[at..][|bitmap|..] == bytes[at + |bitmap|..];
  }

  lemma KeyLength(n: nat)
    requires n < 0x1_0000_0000
    ensures FromLE(LE(n, 4)) == n
  {
    Widths();
    LERound(n, 4);
  }

  /** One shard. Its postings have new and distinct keys that belong to it. */
  method ReadShard(f: Format, bytes: Bytes, shard: nat, count: nat, postings: map<(byte, Bytes), set<nat>>,
    ghost written: Option<seq<Posting>>)
    returns (ok: bool, more: map<(byte, Bytes), set<nat>>, ghost read: seq<Posting>)
    requires f.codec.PrefixDecodable(count)
    requires written.Some? ==> (
      WrittenShard(f, shard, count, written.value, postings) && bytes == EncodeGroup(f.codec, written.value))
    ensures ok ==> Adds(postings, read, more) && AllOk(f, shard, count, read)
    ensures written.Some? ==> ok && read == written.value
  {
    more, read, ok := postings, [], false;
    if written.Some? { GroupStart(f.codec, bytes, written.value); }
    if |bytes| < 4 { return; }
    var length := FromLE(bytes[..4]);
    if length > |bytes| / 5 { return; }
    var position: nat, i := 4, 0;
    while i < length
      invariant i == |read| <= length && position <= |bytes|
      invariant Adds(postings, read, more) && AllOk(f, shard, count, read)
      invariant written.Some? ==>
                  length == |written.value| && Left(f, shard, count, postings, read, bytes[position..], written.value)
    {
      ok, more, position, read := Restore(f, bytes, position, shard, count, postings, more, read, written);
      if !ok { return; }
      i := i + 1;
    }
    ok := position == |bytes|;
  }

  /** The postings after `read` of a written shard are what is left of its bytes. */
  ghost predicate Left(f: Format, shard: nat, count: nat, postings: map<(byte, Bytes), set<nat>>, read: seq<Posting>,
                       rest: Bytes, written: seq<Posting>)
  {
    && WrittenShard(f, shard, count, written, postings)
    && read <= written && rest == EncodePostings(f.codec, written[|read|..])
  }

  lemma LeftNext(f: Format, shard: nat, count: nat, postings: map<(byte, Bytes), set<nat>>,
    sofar: map<(byte, Bytes), set<nat>>,
                 read: seq<Posting>, rest: Bytes, written: seq<Posting>)
    returns (tail: Bytes)
    requires Left(f, shard, count, postings, read, rest, written) && |read| < |written| && Adds(postings, read, sofar)
    ensures var p := written[|read|];
      && |p.key| < 0x1_0000_0000 && PostingOk(f, shard, count, p) && (p.kind, p.key) !in sofar
      && rest == EncodePosting(f.codec, p) + tail
      && Left(f, shard, count, postings, read + [p], tail, written)
  {
    var i, p := |read|, written[|read|];
    PrefixNext(read, written);
    NextPosting(f.codec, written, i);
    NotYetRead(postings, written, i, sofar);
    tail := EncodePostings(f.codec, written[i + 1..]);
    assert PostingOk(f, shard, count, p);
    assert |read + [p]| == i + 1;
  }

  lemma PrefixNext(read: seq<Posting>, written: seq<Posting>)
    requires read <= written && |read| < |written|
    ensures written[..|read|] == read && read + [written[|read|]] <= written
  {
  }

  /** The next posting of a shard, added to what has been restored. */
  method Restore(f: Format, bytes: Bytes, start: nat, shard: nat, count: nat,
    ghost postings: map<(byte, Bytes), set<nat>>,
                 sofar: map<(byte, Bytes), set<nat>>, ghost read: seq<Posting>, ghost written: Option<seq<Posting>>)
    returns (ok: bool, more: map<(byte, Bytes), set<nat>>, end: nat, ghost now: seq<Posting>)
    requires f.codec.PrefixDecodable(count) && start <= |bytes|
    requires Adds(postings, read, sofar) && AllOk(f, shard, count, read)
    requires written.Some? ==>
               Left(f, shard, count, postings, read, bytes[start..], written.value) && |read| < |written.value|
    ensures ok ==> |now| == |read| + 1 && Adds(postings, now, more) && AllOk(f, shard, count, now) && end <= |bytes|
    ensures written.Some? ==> ok && Left(f, shard, count, postings, now, bytes[end..], written.value)
  {
    ok, more, end, now := false, sofar, start, read;
    ghost var next: Option<Posting>, tail: Bytes := None, [];
    if written.Some? {
      tail := LeftNext(f, shard, count, postings, sofar, read, bytes[start..], written.value);
      next := Some(written.value[|read|]);
    }
    var accepted, p, after := ReadPosting(f, bytes, start, shard, count, next, tail);
    if !accepted || !Restorable(f, p.kind, p.key) || (p.kind, p.key) in sofar { return; }
    AddOne(postings, read, sofar, p);
    ok, more, end, now := true, sofar[(p.kind, p.key) := p.slots], after, read + [p];
  }

  ghost predicate AllOk(f: Format, shard: nat, count: nat, ps: seq<Posting>) {
    forall i :: 0 <= i < |ps| ==> PostingOk(f, shard, count, ps[i])
  }

  predicate KeysShort(ps: seq<Posting>) {
    forall i :: 0 <= i < |ps| ==> |ps[i].key| < 0x1_0000_0000
  }

  ghost predicate WrittenShard(f: Format, shard: nat, count: nat, ps: seq<Posting>,
    postings: map<(byte, Bytes), set<nat>>) {
    && |ps| < 0x1_0000_0000
    && KeysShort(ps) && AllOk(f, shard, count, ps)
    && (forall i :: 0 <= i < |ps| ==> (ps[i].kind, ps[i].key) !in postings)
    && (forall i, j :: 0 <= i < j < |ps| ==> (ps[i].kind, ps[i].key) != (ps[j].kind, ps[j].key))
  }

  lemma {:induction false} PostingsLength(codec: Codec, ps: seq<Posting>)
    requires KeysShort(ps)
    ensures |EncodePostings(codec, ps)| >= 5 * |ps|
  {
    if ps != [] { PostingsLength(codec, ps[1..]); }
  }

  lemma GroupStart(codec: Codec, bytes: Bytes, ps: seq<Posting>)
    requires |ps| < 0x1_0000_0000 && KeysShort(ps)
    requires bytes == EncodeGroup(codec, ps)
    ensures |bytes| >= 4 && FromLE(bytes[..4]) == |ps| && |ps| <= |bytes| / 5 && bytes[4..] == EncodePostings(codec, ps)
    ensures ps[0..] == ps
  {
    KeyLength(|ps|);
    PostingsLength(codec, ps);
    assert bytes[..4] == LE(|ps|, 4);
  }

  lemma NextPosting(codec: Codec, ps: seq<Posting>, i: nat)
    requires i < |ps| && KeysShort(ps)
    ensures EncodePostings(codec, ps[i..]) == EncodePosting(codec, ps[i]) + EncodePostings(codec, ps[i + 1..])
  {
    assert ps[i..][1..] == ps[i + 1..];
  }

  lemma AddOne(postings: map<(byte, Bytes), set<nat>>, ps: seq<Posting>, more: map<(byte, Bytes), set<nat>>, p: Posting)
    requires Adds(postings, ps, more) && (p.kind, p.key) !in more
    ensures Adds(postings, ps + [p], more[(p.kind, p.key) := p.slots])
  {
    var all := ps + [p];
    assert all[|ps|] == p;
    forall k | k in more[(p.kind, p.key) := p.slots] && k !in postings
      ensures exists i :: 0 <= i < |all| && (all[i].kind, all[i].key) == k
    {
      if k != (p.kind, p.key) {
        var i :| 0 <= i < |ps| && (ps[i].kind, ps[i].key) == k;
        assert all[i] == ps[i];
      }
    }
  }

  lemma NotYetRead(postings: map<(byte, Bytes), set<nat>>, ps: seq<Posting>, i: nat, more: map<(byte, Bytes), set<nat>>)
    requires i < |ps| && Adds(postings, ps[..i], more)
    requires (ps[i].kind, ps[i].key) !in postings
    requires forall j, k :: 0 <= j < k < |ps| ==> (ps[j].kind, ps[j].key) != (ps[k].kind, ps[k].key)
    ensures (ps[i].kind, ps[i].key) !in more
  {
  }

  // ---------- The whole index ----------

  /** An index with the enumeration of its postings, shard by shard. */
  datatype Written = Written(index: Index, groups: seq<seq<Posting>>)

  function Postings(groups: seq<seq<Posting>>): seq<Posting> {
    if groups == [] then [] else Postings(groups[..|groups| - 1]) + groups[|groups| - 1]
  }

  const DIRECTORIES: (byte, Bytes) := (4, [])
  const SYMLINKS: (byte, Bytes) := (5, [])

  ghost predicate PostingsOk(f: Format, count: nat, ps: seq<Posting>) {
    forall i :: 0 <= i < |ps| ==>
        Restorable(f, ps[i].kind, ps[i].key) && f.partition(ps[i].kind, ps[i].key) < SHARDS
        && SlotsBelow(ps[i].slots, count)
  }

  /** A valid index over `count` entries: both orders are permutations of the live
      slots, ties are live, and the postings have distinct restorable keys, among
      them both flag groups. */
  ghost predicate ValidIndex(f: Format, count: nat, index: Index, ps: seq<Posting>) {
    && SlotsBelow(index.live, count) && index.ties <= index.live
    && IsOrder(index.nameOrder, index.live) && IsOrder(index.pathOrder, index.live)
    && Adds(map[], ps, index.postings) && PostingsOk(f, count, ps)
    && DIRECTORIES in index.postings && SYMLINKS in index.postings
  }

  ghost predicate GroupsOk(f: Format, count: nat, groups: seq<seq<Posting>>) {
    |groups| == SHARDS && forall shard :: 0 <= shard < SHARDS ==>
      |groups[shard]| < 0x1_0000_0000 && KeysShort(groups[shard]) && AllOk(f, shard, count, groups[shard])
  }

  ghost predicate Writable(f: Format, count: nat, w: Written) {
    && count < 0x1_0000_0000
    && ValidIndex(f, count, w.index, Postings(w.groups))
    && GroupsOk(f, count, w.groups)
  }

  function Groups(codec: Codec, groups: seq<seq<Posting>>): seq<Bytes>
    requires forall i :: 0 <= i < |groups| ==> KeysShort(groups[i])
  {
    seq(|groups|, i requires 0 <= i < |groups| => EncodeGroup(codec, groups[i]))
  }

  function Sections(f: Format, w: Written): seq<Bytes>
    requires forall i :: 0 <= i < |w.groups| ==> KeysShort(w.groups[i])
  {
    [f.codec.encode(w.index.live) + f.codec.encode(w.index.ties)]
    + EncodeBlocks(w.index.nameOrder) + EncodeBlocks(w.index.pathOrder) + Groups(f.codec, w.groups)
  }

  function Descriptors(store: Store, parts: seq<Bytes>): Bytes {
    if parts == [] then [] else Descriptors(store, parts[..|parts| - 1]) + store.publish(parts[|parts| - 1])
  }

  function Header(count: nat, live: nat, nameBlocks: nat, pathBlocks: nat): (r: Bytes)
    ensures |r| == 40
  {
    MAGIC + LE(count, 8) + LE(live, 8) + LE(nameBlocks, 8) + LE(pathBlocks, 8)
  }

  function Root(f: Format, count: nat, w: Written): Bytes
    requires forall i :: 0 <= i < |w.groups| ==> KeysShort(w.groups[i])
  {
    Header(count, |w.index.live|, |w.index.nameOrder|, |w.index.pathOrder|) + Descriptors(f.store, Sections(f, w))
  }

  method WriteBlocks(blocks: seq<seq<nat>>) returns (parts: seq<Bytes>)
    ensures parts == EncodeBlocks(blocks)
  {
    parts := [];
    for b := 0 to |blocks|
      invariant parts == EncodeBlocks(blocks[..b])
    {
      assert EncodeBlocks(blocks[..b + 1]) == EncodeBlocks(blocks[..b]) + [EncodeSlots(blocks[b])];
      parts := parts + [EncodeSlots(blocks[b])];
    }
    assert blocks[..|blocks|] == blocks;
  }

  method WriteGroups(codec: Codec, groups: seq<seq<Posting>>) returns (parts: seq<Bytes>)
    requires forall i :: 0 <= i < |groups| ==> KeysShort(groups[i])
    ensures parts == Groups(codec, groups)
  {
    parts := [];
    for shard := 0 to |groups|
      invariant parts == Groups(codec, groups[..shard])
    {
      assert Groups(codec, groups[..shard + 1]) == Groups(codec, groups[..shard]) + [EncodeGroup(codec, groups[shard])];
      parts := parts + [EncodeGroup(codec, groups[shard])];
    }
    assert groups[..|groups|] == groups;
  }

  method WriteDescriptors(store: Store, parts: seq<Bytes>) returns (bytes: Bytes)
    ensures bytes == Descriptors(store, parts)
  {
    bytes := [];
    for p := 0 to |parts|
      invariant bytes == Descriptors(store, parts[..p])
    {
      assert parts[..p + 1][..p] == parts[..p];
      bytes := bytes + store.publish(parts[p]);
    }
    assert parts[..|parts|] == parts;
  }

  /** Publish every section, then the manifest that names them in order. */
  method WriteSections(f: Format, count: nat, w: Written) returns (root: Bytes)
    requires forall i :: 0 <= i < |w.groups| ==> KeysShort(w.groups[i])
    ensures root == Root(f, count, w)
  {
    var names := WriteBlocks(w.index.nameOrder);
    var paths := WriteBlocks(w.index.pathOrder);
    var shards := WriteGroups(f.codec, w.groups);
    var parts := [f.codec.encode(w.index.live) + f.codec.encode(w.index.ties)] + names + paths + shards;
    var descriptors := WriteDescriptors(f.store, parts);
    root := Header(count, |w.index.live|, |w.index.nameOrder|, |w.index.pathOrder|) + descriptors;
  }

  lemma {:induction false} DescriptorAt(store: Store, parts: seq<Bytes>, i: nat)
    requires store.Keeps(parts) && i < |parts|
    ensures |Descriptors(store, parts)| == DESCRIPTOR * |parts|
    ensures Descriptors(store, parts)[DESCRIPTOR * i..DESCRIPTOR * i + DESCRIPTOR] == store.publish(parts[i])
    decreases |parts|
  {
    var front := parts[..|parts| - 1];
    var x, y := Descriptors(store, front), store.publish(parts[|parts| - 1]);
    DescriptorsLength(store, front);
    if i < |front| {
      DescriptorAt(store, front, i);
      assert (x + y)[DESCRIPTOR * i..DESCRIPTOR * i + DESCRIPTOR] == x[DESCRIPTOR * i..DESCRIPTOR * i + DESCRIPTOR];
    } else {
      assert (x + y)[DESCRIPTOR * i..DESCRIPTOR * i + DESCRIPTOR] == y;
    }
  }

  lemma {:induction false} DescriptorsLength(store: Store, parts: seq<Bytes>)
    requires store.Keeps(parts)
    ensures |Descriptors(store, parts)| == DESCRIPTOR * |parts|
    decreases |parts|
  {
    if parts != [] { DescriptorsLength(store, parts[..|parts| - 1]); }
  }

  lemma SliceAfter(bytes: Bytes, skip: nat, start: nat, n: nat)
    requires skip + start + n <= |bytes|
    ensures bytes[skip..][start..start + n] == bytes[skip + start..skip + start + n]
  {
    var a, b := bytes[skip..][start..start + n], bytes[skip + start..skip + start + n];
    forall i | 0 <= i < |a| ensures a[i] == b[i] {
      assert bytes[skip..][start + i] == bytes[skip + (start + i)];
    }
  }

  /** The sections a manifest names after its header. */
  method ReadParts(store: Store, root: Bytes, n: nat, ghost written: Option<seq<Bytes>>)
    returns (ok: bool, parts: seq<Bytes>)
    requires |root| == 40 + DESCRIPTOR * n
    requires written.Some? ==>
               store.Keeps(written.value) && |written.value| == n && root[40..] == Descriptors(store, written.value)
    ensures ok ==> |parts| == n
    ensures written.Some? ==> ok && parts == written.value
  {
    parts, ok := [], false;
    var i := 0;
    while i < n
      invariant i == |parts| <= n
      invariant written.Some? ==> parts == written.value[..i]
    {
      var at := 40 + DESCRIPTOR * i;
      var descriptor := root[at..at + DESCRIPTOR];
      if written.Some? {
        DescriptorAt(store, written.value, i);
        SliceAfter(root, 40, DESCRIPTOR * i, DESCRIPTOR);
      }
      var section := store.open(descriptor);
      if section.None? { return; }
      parts := parts + [section.value];
      i := i + 1;
    }
    ok := true;
  }

  /** The live set and the path ties share the first section. */
  method ReadLive(f: Format, bytes: Bytes, count: nat, expected: nat, ghost written: Option<Index>)
    returns (ok: bool, live: set<nat>, ties: set<nat>)
    requires f.codec.PrefixDecodable(count)
    requires written.Some? ==> (
      bytes == f.codec.encode(written.value.live) + f.codec.encode(written.value.ties)
      && expected == |written.value.live|
      && SlotsBelow(written.value.live, count) && written.value.ties <= written.value.live)
    ensures ok ==> SlotsBelow(live, count) && ties <= live && |live| == expected
    ensures written.Some? ==> ok && live == written.value.live && ties == written.value.ties
  {
    ok, live, ties := false, {}, {};
    var first := f.codec.decode(bytes);
    if first.None? || exists slot :: slot in first.value.0 && slot >= count { return; }
    var rest := bytes[first.value.1..];
    if written.Some? { assert rest == f.codec.encode(written.value.ties) + []; }
    var second := f.codec.decode(rest);
    if second.None? || exists slot :: slot in second.value.0 && slot >= count { return; }
    if second.value.1 != |rest| || |first.value.0| != expected || !(second.value.0 <= first.value.0) { return; }
    ok, live, ties := true, first.value.0, second.value.0;
  }

  lemma PostingsMore(groups: seq<seq<Posting>>, shard: nat)
    requires shard < |groups|
    ensures Postings(groups[..shard + 1]) == Postings(groups[..shard]) + groups[shard]
  {
    assert groups[..shard + 1][..shard] == groups[..shard];
  }

  lemma NothingAdded(f: Format, count: nat)
    ensures Adds(map[], [], map[]) && PostingsOk(f, count, []) && Postings([]) == []
  {
  }

  lemma GroupCount(f: Format, count: nat, groups: seq<seq<Posting>>)
    requires GroupsOk(f, count, groups)
    ensures |groups| == SHARDS
  {
  }

  /** All shards: their postings together have distinct keys. */
  method ReadShards(f: Format, parts: seq<Bytes>, count: nat, ghost written: Option<seq<seq<Posting>>>)
    returns (ok: bool, postings: map<(byte, Bytes), set<nat>>, ghost read: seq<Posting>)
    requires f.codec.PrefixDecodable(count) && |parts| == SHARDS
    requires written.Some? ==> (
      GroupsOk(f, count, written.value) && DistinctKeys(Postings(written.value))
      && parts == Groups(f.codec, written.value))
    ensures ok ==> Adds(map[], read, postings) && PostingsOk(f, count, read)
    ensures written.Some? ==> ok && read == Postings(written.value)
  {
    hide Adds, PostingsOk, GroupsOk, DistinctKeys, Postings, EncodeGroup, WrittenShard, AllOk;
    ok, postings, read := false, map[], [];
    NothingAdded(f, count);
    var shard := 0;
    while shard < SHARDS
      invariant shard <= SHARDS
      invariant Adds(map[], read, postings) && PostingsOk(f, count, read)
      invariant written.Some? ==> read == Postings(written.value[..shard])
    {
      ghost var group: Option<seq<Posting>> := if written.Some? then Some(written.value[shard]) else None;
      if written.Some? { GroupCount(f, count, written.value); GroupWritten(f, count, written.value, shard, postings); }
      ghost var more: seq<Posting>;
      var accepted, all;
      accepted, all, more := ReadShard(f, parts[shard], shard, count, postings, group);
      if !accepted { return; }
      AddsMore(postings, read, all, more);
      OkMore(f, shard, count, read, more);
      if written.Some? { PostingsMore(written.value, shard); }
      postings, read := all, read + more;
      shard := shard + 1;
    }
    if written.Some? { assert written.value[..shard] == written.value; }
    ok := true;
  }

  ghost predicate DistinctKeys(ps: seq<Posting>) {
    forall i, j :: 0 <= i < j < |ps| ==> (ps[i].kind, ps[i].key) != (ps[j].kind, ps[j].key)
  }

  lemma {:induction false} PostingsPrefix(groups: seq<seq<Posting>>, n: nat)
    requires n <= |groups|
    ensures Postings(groups[..n]) <= Postings(groups)
    decreases |groups|
  {
    if n < |groups| {
      PostingsPrefix(groups[..|groups| - 1], n);
      assert groups[..|groups| - 1][..n] == groups[..n];
    } else {
      assert groups[..n] == groups;
    }
  }

  /** A written group's keys are distinct and new when its turn comes. */
  lemma GroupWritten(f: Format, count: nat, groups: seq<seq<Posting>>, shard: nat,
    postings: map<(byte, Bytes), set<nat>>)
    requires GroupsOk(f, count, groups) && DistinctKeys(Postings(groups)) && shard < SHARDS
    requires Adds(map[], Postings(groups[..shard]), postings)
    ensures WrittenShard(f, shard, count, groups[shard], postings)
  {
    var before, group, through := Postings(groups[..shard]), groups[shard], Postings(groups[..shard + 1]);
    assert groups[..shard + 1][..shard] == groups[..shard];
    assert through == before + group;
    PostingsPrefix(groups, shard + 1);
    DistinctPrefix(through, Postings(groups));
    DistinctParts(before, group);
    forall i | 0 <= i < |group| ensures (group[i].kind, group[i].key) !in postings {
      assert forall j :: 0 <= j < |before| ==> (before[j].kind, before[j].key) != (group[i].kind, group[i].key);
    }
  }

  lemma DistinctPrefix(x: seq<Posting>, y: seq<Posting>)
    requires x <= y && DistinctKeys(y)
    ensures DistinctKeys(x)
  {
  }

  lemma DistinctParts(x: seq<Posting>, y: seq<Posting>)
    requires DistinctKeys(x + y)
    ensures DistinctKeys(y)
    ensures forall i, j :: 0 <= i < |x| && 0 <= j < |y| ==> (x[i].kind, x[i].key) != (y[j].kind, y[j].key)
  {
    var all := x + y;
    assert forall j :: 0 <= j < |y| ==> all[|x| + j] == y[j];
    assert forall i :: 0 <= i < |x| ==> all[i] == x[i];
  }

  lemma AddsMore(postings: map<(byte, Bytes), set<nat>>, read: seq<Posting>, all: map<(byte, Bytes), set<nat>>,
    more: seq<Posting>)
    requires Adds(map[], read, postings) && Adds(postings, more, all)
    ensures Adds(map[], read + more, all)
  {
    var ps := read + more;
    assert forall i :: 0 <= i < |read| ==> ps[i] == read[i];
    assert forall j :: 0 <= j < |more| ==> ps[|read| + j] == more[j];
    forall k | k in all ensures exists i :: 0 <= i < |ps| && (ps[i].kind, ps[i].key) == k {
      if k in postings {
        var i :| 0 <= i < |read| && (read[i].kind, read[i].key) == k;
        assert ps[i] == read[i];
      } else {
        var j :| 0 <= j < |more| && (more[j].kind, more[j].key) == k;
        assert ps[|read| + j] == more[j];
      }
    }
  }

  lemma OkMore(f: Format, shard: nat, count: nat, read: seq<Posting>, more: seq<Posting>)
    requires PostingsOk(f, count, read) && AllOk(f, shard, count, more) && shard < SHARDS
    ensures PostingsOk(f, count, read + more)
  {
    var ps := read + more;
    forall i | 0 <= i < |ps|
      ensures Restorable(f, ps[i].kind, ps[i].key) && f.partition(ps[i].kind, ps[i].key) < SHARDS
              && SlotsBelow(ps[i].slots, count)
    {
      if i >= |read| { assert PostingOk(f, shard, count, more[i - |read|]); }
    }
  }

  /** Two maps built from the same list of postings are the same. */
  lemma AddsUnique(ps: seq<Posting>, x: map<(byte, Bytes), set<nat>>, y: map<(byte, Bytes), set<nat>>)
    requires Adds(map[], ps, x) && Adds(map[], ps, y)
    ensures x == y
  {
    forall k | k in x ensures k in y && y[k] == x[k] {
      var i :| 0 <= i < |ps| && (ps[i].kind, ps[i].key) == k;
    }
    forall k | k in y ensures k in x {
      var i :| 0 <= i < |ps| && (ps[i].kind, ps[i].key) == k;
    }
  }

  /** The manifest's counts, when its length and block counts are plausible. */
  method ReadHeader(root: Bytes, count: nat) returns (ok: bool, live: nat, nameBlocks: nat, pathBlocks: nat)
    ensures ok ==> |root| == 40 + DESCRIPTOR * (1 + nameBlocks + pathBlocks + SHARDS)
    ensures ok <==> HeaderOk(root, count)
    ensures ok ==>
              live == FromLE(root[16..24]) && nameBlocks == FromLE(root[24..32]) && pathBlocks == FromLE(root[32..40])
  {
    ok, live, nameBlocks, pathBlocks := false, 0, 0, 0;
    if |root| < 40 || root[..8] != MAGIC { return; }
    live := FromLE(root[16..24]);
    if FromLE(root[8..16]) != count || live > count { return; }
    nameBlocks, pathBlocks := FromLE(root[24..32]), FromLE(root[32..40]);
    var least := (live + ORDER_BLOCK - 1) / ORDER_BLOCK;
    if nameBlocks < least || nameBlocks > live || pathBlocks < least || pathBlocks > live { return; }
    ok := |root| == 40 + DESCRIPTOR * (1 + nameBlocks + pathBlocks + SHARDS);
  }

  predicate HeaderOk(root: Bytes, count: nat) {
    && |root| >= 40 && root[..8] == MAGIC && FromLE(root[8..16]) == count
    && (var live, names, paths := FromLE(root[16..24]), FromLE(root[24..32]), FromLE(root[32..40]);
        var least := (live + ORDER_BLOCK - 1) / ORDER_BLOCK;
        live <= count && least <= names <= live && least <= paths <= live
        && |root| == 40 + DESCRIPTOR * (1 + names + paths + SHARDS))
  }

  /** Whatever is accepted is a valid index, and what was written is accepted and
      comes back unchanged. */
  method Read(f: Format, root: Bytes, count: nat, ghost written: Option<Written>)
    returns (index: Option<Index>, ghost read: seq<Posting>)
    requires f.codec.PrefixDecodable(count)
    requires written.Some? ==>
               && Writable(f, count, written.value) && f.store.Keeps(Sections(f, written.value))
               && root == Root(f, count, written.value)
    ensures index.Some? ==> ValidIndex(f, count, index.value, read)
    ensures written.Some? ==> index == Some(written.value.index)
  {
    hide IsOrder, SlotsBelow, Adds, PostingsOk, GroupsOk, DistinctKeys, Postings, Sections, EncodeBlocks, Groups, Root,
        Descriptors, FromLE, Writable, Codec.PrefixDecodable, Store.Keeps, HeaderOk, KeysShort;
    index, read := None, [];
    ghost var w: Written :| written.Some? ==> w == written.value;
    if written.Some? { RootHeader(f, count, w); WritableParts(f, count, w); SectionParts(f, w, Sections(f, w)); }
    var ok, expected, names, paths := ReadHeader(root, count);
    if !ok { return; }
    var parts, live, ties, nameOrder, pathOrder, postings;
    ok, parts :=
        ReadParts(f.store, root, 1 + names + paths + SHARDS, if written.Some? then Some(Sections(f, w)) else None);
    if !ok { return; }
    var nameParts, pathParts := parts[1..1 + names], parts[1 + names..1 + names + paths];
    var shards := parts[1 + names + paths..];
    assert written.Some? ==>
        && nameParts == EncodeBlocks(w.index.nameOrder) && pathParts == EncodeBlocks(w.index.pathOrder)
        && shards == Groups(f.codec, w.groups);
    ok, live, ties := ReadLive(f, parts[0], count, expected, if written.Some? then Some(w.index) else None);
    if !ok { return; }
    ok, nameOrder := ReadOrder(nameParts, live, if written.Some? then Some(w.index.nameOrder) else None);
    if !ok { return; }
    ok, pathOrder := ReadOrder(pathParts, live, if written.Some? then Some(w.index.pathOrder) else None);
    if !ok { return; }
    ok, postings, read := ReadShards(f, shards, count, if written.Some? then Some(w.groups) else None);
    if written.Some? { AddsUnique(read, postings, w.index.postings); }
    if !ok || DIRECTORIES !in postings || SYMLINKS !in postings { return; }
    index := Some(Index(live, ties, nameOrder, pathOrder, postings));
  }

  lemma WritableParts(f: Format, count: nat, w: Written)
    requires Writable(f, count, w)
    ensures IsOrder(w.index.nameOrder, w.index.live) && IsOrder(w.index.pathOrder, w.index.live)
    ensures SlotsBelow(w.index.live, count) && SlotsBelow(w.index.live, 0x1_0000_0000) && w.index.ties <= w.index.live
    ensures GroupsOk(f, count, w.groups) && |w.groups| == SHARDS
    ensures forall i :: 0 <= i < |w.groups| ==> KeysShort(w.groups[i])
    ensures DistinctKeys(Postings(w.groups)) && Adds(map[], Postings(w.groups), w.index.postings)
    ensures DIRECTORIES in w.index.postings && SYMLINKS in w.index.postings
  {
  }

  lemma SectionParts(f: Format, w: Written, parts: seq<Bytes>)
    requires (forall i :: 0 <= i < |w.groups| ==> KeysShort(w.groups[i])) && parts == Sections(f, w)
    ensures var names, paths := |w.index.nameOrder|, |w.index.pathOrder|;
      && |parts| == 1 + names + paths + |w.groups|
      && parts[0] == f.codec.encode(w.index.live) + f.codec.encode(w.index.ties)
      && parts[1..1 + names] == EncodeBlocks(w.index.nameOrder)
      && parts[1 + names..1 + names + paths] == EncodeBlocks(w.index.pathOrder)
      && parts[1 + names + paths..] == Groups(f.codec, w.groups)
  {
  }

  lemma {:induction false} SetBound(s: set<nat>, n: nat)
    requires SlotsBelow(s, n)
    ensures |s| <= n
  {
    if n > 0 {
      SetBound(s - {n - 1}, n - 1);
    } else {
      Nothing(s);
    }
  }

  lemma Nothing(s: set<nat>)
    requires SlotsBelow(s, 0)
    ensures |s| == 0
  {
    var empty: set<nat> := {};
    assert (forall x :: x in s <==> x in empty) ==> s == empty;
  }

  /** An order of n slots has between ceil(n / 4096) and n blocks. */
  lemma {:induction false} BlockCount(blocks: seq<seq<nat>>)
    requires forall i :: 0 <= i < |blocks| ==> 0 < |blocks[i]| <= ORDER_BLOCK
    ensures |blocks| <= |Flatten(blocks)| <= ORDER_BLOCK * |blocks|
    decreases |blocks|
  {
    if blocks != [] { BlockCount(blocks[..|blocks| - 1]); }
  }

  lemma OrderCount(blocks: seq<seq<nat>>, live: set<nat>)
    requires IsOrder(blocks, live)
    ensures (|live| + ORDER_BLOCK - 1) / ORDER_BLOCK <= |blocks| <= |live|
  {
    BlockCount(blocks);
    DistinctCount(Flatten(blocks), live);
  }

  lemma {:induction false} DistinctCount(s: seq<nat>, live: set<nat>)
    requires Distinct(s) && forall x :: x in s <==> x in live
    ensures |s| == |live|
    decreases |s|
  {
    if s == [] {
      Nothing(live);
    } else {
      var front, last := s[..|s| - 1], s[|s| - 1];
      forall x ensures x in front <==> x in live - {last} {
        assert s == front + [last];
      }
      DistinctCount(front, live - {last});
    }
  }

  lemma RootHeader(f: Format, count: nat, w: Written)
    requires Writable(f, count, w) && f.store.Keeps(Sections(f, w))
    ensures var root := Root(f, count, w);
      && HeaderOk(root, count) && root[40..] == Descriptors(f.store, Sections(f, w))
      && FromLE(root[16..24]) == |w.index.live| && FromLE(root[24..32]) == |w.index.nameOrder|
      && FromLE(root[32..40]) == |w.index.pathOrder|
  {
    var live, names, paths := |w.index.live|, |w.index.nameOrder|, |w.index.pathOrder|;
    var root, rest := Root(f, count, w), Descriptors(f.store, Sections(f, w));
    SetBound(w.index.live, count);
    OrderCount(w.index.nameOrder, w.index.live);
    OrderCount(w.index.pathOrder, w.index.live);
    DescriptorsLength(f.store, Sections(f, w));
    HeaderFields(count, live, names, paths, rest, root);
  }

  lemma HeaderFields(count: nat, live: nat, names: nat, paths: nat, rest: Bytes, root: Bytes)
    requires root == Header(count, live, names, paths) + rest
    requires count < 0x1_0000_0000 && live < 0x1_0000_0000 && names < 0x1_0000_0000 && paths < 0x1_0000_0000
    ensures root[..8] == MAGIC && FromLE(root[8..16]) == count && FromLE(root[16..24]) == live
    ensures FromLE(root[24..32]) == names && FromLE(root[32..40]) == paths && root[40..] == rest
  {
    Long(count);
    Long(live);
    Long(names);
    Long(paths);
    FiveSlices(MAGIC, LE(count, 8), LE(live, 8), LE(names, 8), LE(paths, 8), rest, root);
  }

  lemma Long(n: nat)
    requires n < 0x1_0000_0000
    ensures FromLE(LE(n, 8)) == n
  {
    Widths();
    LERound(n, 8);
  }

  lemma FiveSlices(m: Bytes, a: Bytes, b: Bytes, c: Bytes, d: Bytes, rest: Bytes, root: Bytes)
    requires |m| == |a| == |b| == |c| == |d| == 8 && root == m + a + b + c + d + rest
    ensures root[..8] == m && root[8..16] == a && root[16..24] == b && root[24..32] == c && root[32..40] == d
            && root[40..] == rest
  {
  }
}
