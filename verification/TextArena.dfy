/** The shared text arena of a block: references into it, the bytes that are live, and the packing
  * of the live bytes into a smaller arena (core/src/entry_table.rs). */
module TextArena {
  import opened Common

  const U32_MAX := 0xFFFF_FFFF

  datatype TextRef = TextRef(offset: nat, length: nat)

  datatype PathRef = PathRef(prefix: TextRef, suffix: TextRef)

  /** A half-open range of arena positions. */
  datatype Range = Range(start: nat, end: nat)

  predicate Fits(text: Bytes, r: TextRef) {
    r.offset + r.length <= |text|
  }

  function TextAt(text: Bytes, r: TextRef): Bytes
    requires Fits(text, r)
  {
    text[r.offset..r.offset + r.length]
  }

  function Span(r: TextRef): Range {
    Range(r.offset, r.offset + r.length)
  }

  /** An arena that only grew still holds every earlier text at its place. */
  predicate Grown(before: Bytes, after: Bytes) {
    |before| <= |after| && after[..|before|] == before
  }

  lemma GrownReads(before: Bytes, after: Bytes, r: TextRef)
    requires Grown(before, after) && Fits(before, r)
    ensures Fits(after, r) && TextAt(after, r) == TextAt(before, r)
  {
    assert TextAt(after, r) == after[..|before|][r.offset..r.offset + r.length];
  }

  /*** Live bytes ***/

  predicate Within(s: Range, p: int) {
    s.start <= p < s.end
  }

  ghost predicate Covered(spans: seq<Range>, p: int) {
    exists s :: s in spans && Within(s, p)
  }

  /** The arena positions below n that some span reads. */
  ghost function LiveBytes(spans: seq<Range>, n: nat): set<int> {
    set p: int | 0 <= p < n && Covered(spans, p)
  }

  ghost predicate Ordered(spans: seq<Range>) {
    forall i, j :: 0 <= i < j < |spans| ==> spans[i].start <= spans[j].start
  }

  /** Nonempty, in order, and with a gap of at least one byte between neighbours. */
  ghost predicate Separated(ranges: seq<Range>) {
    && (forall k :: 0 <= k < |ranges| ==> ranges[k].start < ranges[k].end)
    && (forall j, k :: 0 <= j < k < |ranges| ==> ranges[j].end < ranges[k].start)
  }

  predicate Inside(s: Range, t: Range) {
    t.start <= s.start && s.end <= t.end
  }

  ghost predicate Held(s: Range, ranges: seq<Range>) {
    exists t :: t in ranges && Inside(s, t)
  }

  /** The ranges are separated, hold every nonempty span whole, and hold no byte outside all spans. */
  ghost predicate Merged(ranges: seq<Range>, spans: seq<Range>) {
    && Separated(ranges)
    && (forall s :: s in spans && s.start < s.end ==> Held(s, ranges))
    && (forall p :: Covered(ranges, p) ==> Covered(spans, p))
  }

  ghost predicate Proper(spans: seq<Range>) {
    forall s :: s in spans ==> s.start <= s.end
  }

  function Total(ranges: seq<Range>): nat
    requires Proper(ranges)
  {
    if ranges == [] then 0
    else
      var last := ranges[|ranges| - 1];
      Total(ranges[..|ranges| - 1]) + (last.end - last.start)
  }

  /*** Sorting and merging the references of a block ***/

  predicate Before(a: Range, b: Range) {
    a.start < b.start || (a.start == b.start && a.end <= b.end)
  }

  function Insert(s: Range, sorted: seq<Range>): seq<Range> {
    if sorted == [] || Before(s, sorted[0]) then [s] + sorted
    else [sorted[0]] + Insert(s, sorted[1..])
  }

  /** The references in order of (start, end). */
  function Sort(spans: seq<Range>): seq<Range> {
    if spans == [] then [] else Insert(spans[0], Sort(spans[1..]))
  }

  lemma {:induction false} InsertKeeps(s: Range, sorted: seq<Range>)
    ensures multiset(Insert(s, sorted)) == multiset(sorted) + multiset{s}
  {
    if sorted == [] || Before(s, sorted[0]) {
    } else {
      InsertKeeps(s, sorted[1..]);
      assert sorted == [sorted[0]] + sorted[1..];
    }
  }

  ghost predicate StartsFrom(spans: seq<Range>, start: nat) {
    forall i :: 0 <= i < |spans| ==> start <= spans[i].start
  }

  lemma OrderedCons(s: Range, rest: seq<Range>)
    requires Ordered(rest) && StartsFrom(rest, s.start)
    ensures Ordered([s] + rest)
  {
  }

  lemma {:induction false} InsertOrdered(s: Range, sorted: seq<Range>, start: nat)
    requires Ordered(sorted) && StartsFrom(sorted, start) && start <= s.start
    ensures Ordered(Insert(s, sorted)) && StartsFrom(Insert(s, sorted), start)
  {
    if sorted == [] || Before(s, sorted[0]) {
      assert StartsFrom(sorted, s.start);
      OrderedCons(s, sorted);
    } else {
      InsertOrdered(s, sorted[1..], sorted[0].start);
      OrderedCons(sorted[0], Insert(s, sorted[1..]));
    }
  }

  lemma {:induction false} SortKeeps(spans: seq<Range>)
    ensures multiset(Sort(spans)) == multiset(spans)
  {
    if spans != [] {
      SortKeeps(spans[1..]);
      InsertKeeps(spans[0], Sort(spans[1..]));
      assert spans == [spans[0]] + spans[1..];
    }
  }

  lemma {:induction false} SortOrdered(spans: seq<Range>)
    ensures Ordered(Sort(spans))
    ensures multiset(Sort(spans)) == multiset(spans)
  {
    SortKeeps(spans);
    if spans != [] {
      SortOrdered(spans[1..]);
      InsertOrdered(spans[0], Sort(spans[1..]), 0);
    }
  }

  lemma SortMembers(spans: seq<Range>)
    ensures forall s :: s in Sort(spans) <==> s in spans
  {
    SortOrdered(spans);
    forall s ensures s in Sort(spans) <==> s in spans {
      assert s in multiset(Sort(spans)) <==> s in multiset(spans);
    }
  }

  lemma CoveredAppend(spans: seq<Range>, s: Range)
    ensures forall p :: Covered(spans + [s], p) <==> Covered(spans, p) || Within(s, p)
  {
    forall p ensures Covered(spans + [s], p) <==> Covered(spans, p) || Within(s, p) {
      assert s in spans + [s];
      assert forall t :: t in spans + [s] <==> t in spans || t == s;
    }
  }

  /** Any set of ranges that holds the same spans whole keeps them held when it holds the old ranges. */
  lemma HeldThrough(s: Range, ranges: seq<Range>, wider: seq<Range>)
    requires Held(s, ranges)
    requires forall t :: t in ranges ==> Held(t, wider)
    ensures Held(s, wider)
  {
    var t :| t in ranges && Inside(s, t);
    var u :| u in wider && Inside(t, u);
    assert Inside(s, u);
  }

  lemma MergedSkip(ranges: seq<Range>, spans: seq<Range>, s: Range)
    requires Merged(ranges, spans) && s.start == s.end
    ensures Merged(ranges, spans + [s])
  {
    CoveredAppend(spans, s);
  }

  lemma SeparatedAdd(ranges: seq<Range>, s: Range)
    requires Separated(ranges) && s.start < s.end
    requires ranges == [] || ranges[|ranges| - 1].end < s.start
    ensures Separated(ranges + [s])
  {
    var wider := ranges + [s];
    forall j, k | 0 <= j < k < |wider| ensures wider[j].end < wider[k].start {
      if k == |ranges| && j < |ranges| - 1 {
        assert ranges[j].end < ranges[|ranges| - 1].start < ranges[|ranges| - 1].end;
      }
    }
  }

  lemma MergedAdd(ranges: seq<Range>, spans: seq<Range>, s: Range)
    requires Merged(ranges, spans) && s.start < s.end
    requires ranges == [] || ranges[|ranges| - 1].end < s.start
    ensures Merged(ranges + [s], spans + [s])
  {
    var wider := ranges + [s];
    CoveredAppend(spans, s);
    CoveredAppend(ranges, s);
    SeparatedAdd(ranges, s);
    assert s in wider && Inside(s, s);
    forall t | t in spans + [s] && t.start < t.end ensures Held(t, wider) {
      if t in spans {
        var u :| u in ranges && Inside(t, u);
        assert u in wider;
      }
    }
  }

  lemma MergedExtend(ranges: seq<Range>, spans: seq<Range>, s: Range, last: Range, longer: Range)
    requires Merged(ranges, spans) && s.start < s.end && ranges != [] && last == ranges[|ranges| - 1]
    requires last.start <= s.start <= last.end
    requires longer == Range(last.start, if last.end < s.end then s.end else last.end)
    ensures Merged(ranges[..|ranges| - 1] + [longer], spans + [s])
  {
    var front := ranges[..|ranges| - 1];
    var wider := front + [longer];
    CoveredAppend(spans, s);
    CoveredAppend(front, last);
    CoveredAppend(front, longer);
    assert ranges == front + [last];
    assert longer in wider && Inside(last, longer) && Inside(s, longer);
    forall t | t in ranges ensures Held(t, wider) {
      if t != last {
        assert t in wider && Inside(t, t);
      }
    }
    forall t | t in spans + [s] && t.start < t.end ensures Held(t, wider) {
      if t in spans {
        HeldThrough(t, ranges, wider);
      }
    }
  }

  /** finish_update's merge of the sorted reference ranges. */
  method Merge(spans: seq<Range>) returns (ranges: seq<Range>)
    requires Ordered(spans) && Proper(spans)
    ensures Merged(ranges, spans)
  {
    ranges := [];
    for i := 0 to |spans|
      invariant Merged(ranges, spans[..i])
      invariant ranges != [] ==> forall j :: i <= j < |spans| ==> ranges[|ranges| - 1].start <= spans[j].start
    {
      var s := spans[i];
      assert spans[..i + 1] == spans[..i] + [s];
      if s.start == s.end {
        MergedSkip(ranges, spans[..i], s);
      } else if ranges != [] && s.start <= ranges[|ranges| - 1].end {
        var last := ranges[|ranges| - 1];
        var longer := Range(last.start, if last.end < s.end then s.end else last.end);
        MergedExtend(ranges, spans[..i], s, last, longer);
        ranges := ranges[..|ranges| - 1] + [longer];
      } else {
        MergedAdd(ranges, spans[..i], s);
        ranges := ranges + [s];
      }
    }
    assert spans[..|spans|] == spans;
  }

  lemma MergedMembers(ranges: seq<Range>, a: seq<Range>, b: seq<Range>)
    requires Merged(ranges, a) && forall s :: s in a <==> s in b
    ensures Merged(ranges, b)
  {
    forall p | Covered(a, p) ensures Covered(b, p) {
      var s :| s in a && Within(s, p);
      assert s in b;
    }
  }

  /*** The merged ranges count the live bytes exactly ***/

  lemma {:induction false} IntervalSize(r: Range, own: set<int>)
    requires r.start <= r.end
    requires forall p :: p in own <==> Within(r, p)
    ensures |own| == r.end - r.start
    decreases r.end - r.start
  {
    if r.start == r.end {
      assert forall p :: p !in own;
      assert own == {};
    } else {
      var last := r.end - 1;
      assert Within(r, last);
      var rest := own - {last};
      forall p ensures p in rest <==> Within(Range(r.start, r.end - 1), p) {
        assert p in rest <==> p in own && p != last;
      }
      IntervalSize(Range(r.start, r.end - 1), rest);
      assert own == rest + {last};
    }
  }

  lemma SeparatedLast(front: seq<Range>, last: Range, p: int)
    requires Separated(front + [last]) && Covered(front, p)
    ensures !Within(last, p)
  {
    var t :| t in front && Within(t, p);
    var k :| 0 <= k < |front| && front[k] == t;
    assert (front + [last])[k] == t && (front + [last])[|front|] == last;
  }

  lemma {:induction false} TotalIsLive(ranges: seq<Range>, n: nat)
    requires Separated(ranges) && (forall t :: t in ranges ==> t.end <= n)
    ensures Total(ranges) == |LiveBytes(ranges, n)|
  {
    if ranges == [] {
      assert forall p :: p !in LiveBytes(ranges, n);
      assert LiveBytes(ranges, n) == {};
    } else {
      var front, last := ranges[..|ranges| - 1], ranges[|ranges| - 1];
      assert ranges == front + [last];
      TotalIsLive(front, n);
      LiveSplit(front, last, n);
    }
  }

  lemma LiveSplit(front: seq<Range>, last: Range, n: nat)
    requires Separated(front + [last]) && last.end <= n
    ensures |LiveBytes(front + [last], n)| == |LiveBytes(front, n)| + last.end - last.start
  {
    assert (front + [last])[|front|] == last;
    var all, before := LiveBytes(front + [last], n), LiveBytes(front, n);
    CoveredAppend(front, last);
    var own := all - before;
    forall p ensures p in own <==> Within(last, p) {
      if Within(last, p) && p in before {
        SeparatedLast(front, last, p);
      }
    }
    IntervalSize(last, own);
    assert all == before + own;
  }

  /** The bytes that finish_update counts as live are exactly the bytes that some reference reads. */
  lemma MergedCount(ranges: seq<Range>, spans: seq<Range>, n: nat)
    requires Merged(ranges, spans) && (forall s :: s in spans ==> s.start <= s.end <= n)
    ensures forall t :: t in ranges ==> t.start < t.end <= n
    ensures LiveBytes(ranges, n) == LiveBytes(spans, n)
    ensures Total(ranges) == |LiveBytes(spans, n)|
  {
    forall t | t in ranges ensures t.start < t.end <= n {
      assert Within(t, t.end - 1);
      assert Covered(ranges, t.end - 1);
      var s :| s in spans && Within(s, t.end - 1);
    }
    forall p | Covered(spans, p) ensures Covered(ranges, p) {
      var s :| s in spans && Within(s, p);
      var t :| t in ranges && Inside(s, t);
      assert Within(t, p);
    }
    TotalIsLive(ranges, n);
    assert LiveBytes(ranges, n) == LiveBytes(spans, n);
  }

  /*** Packing the live ranges into a new arena ***/

  /** Where a range of the old arena begins, and where its bytes begin in the new one. */
  datatype Placement = Placement(start: nat, destination: nat)

  ghost predicate InArena(ranges: seq<Range>, n: nat) {
    forall t :: t in ranges ==> t.start <= t.end <= n
  }

  /** The old bytes of the ranges, one after the other. */
  ghost function Packed(text: Bytes, ranges: seq<Range>): (packed: Bytes)
    requires InArena(ranges, |text|)
    ensures |packed| == Total(ranges)
  {
    if ranges == [] then []
    else
      var last := ranges[|ranges| - 1];
      Packed(text, ranges[..|ranges| - 1]) + text[last.start..last.end]
  }

  /** Where Pack puts each range: after all the ranges before it. */
  ghost function Placements(ranges: seq<Range>): (placements: seq<Placement>)
    requires Proper(ranges)
    ensures |placements| == |ranges|
  {
    seq(|ranges|, k requires 0 <= k < |ranges| => Placement(ranges[k].start, Total(ranges[..k])))
  }

  method Pack(text: Bytes, ranges: seq<Range>) returns (packed: Bytes, placements: seq<Placement>)
    requires InArena(ranges, |text|)
    ensures packed == Packed(text, ranges) && placements == Placements(ranges)
  {
    packed, placements := [], [];
    for i := 0 to |ranges|
      invariant InArena(ranges[..i], |text|)
      invariant packed == Packed(text, ranges[..i]) && placements == Placements(ranges[..i])
    {
      assert ranges[..i + 1][..i] == ranges[..i] && ranges[..i + 1][i] == ranges[i];
      forall k | 0 <= k <= i ensures ranges[..i + 1][..k] == ranges[..k] {
      }
      forall k | 0 <= k <= i ensures ranges[..i][..k] == ranges[..k] {
      }
      placements := placements + [Placement(ranges[i].start, |packed|)];
      packed := packed + text[ranges[i].start..ranges[i].end];
    }
    assert ranges[..|ranges|] == ranges;
  }

  /** How many leading placements start at or before the offset. */
  function Home(placements: seq<Placement>, offset: nat): (k: nat)
    ensures k <= |placements|
    ensures k > 0 ==> placements[k - 1].start <= offset
    ensures forall i :: k <= i < |placements| ==> offset < placements[i].start
  {
    if placements == [] then 0
    else if placements[|placements| - 1].start <= offset then |placements|
    else Home(placements[..|placements| - 1], offset)
  }

  ghost predicate StartsOrdered(placements: seq<Placement>) {
    forall i, j :: 0 <= i < j < |placements| ==> placements[i].start < placements[j].start
  }

  lemma {:induction false} HomeUnique(placements: seq<Placement>, offset: nat, k: nat)
    requires k <= |placements|
    requires forall i :: 0 <= i < k ==> placements[i].start <= offset
    requires forall i :: k <= i < |placements| ==> offset < placements[i].start
    ensures Home(placements, offset) == k
  {
    if placements != [] && offset < placements[|placements| - 1].start {
      HomeUnique(placements[..|placements| - 1], offset, k);
    }
  }

  /** partition_point: the binary search for the last placement at or before the offset. */
  method PartitionPoint(placements: seq<Placement>, offset: nat) returns (k: nat)
    requires StartsOrdered(placements)
    ensures k == Home(placements, offset)
  {
    var low, high := 0, |placements|;
    while low < high
      invariant 0 <= low <= high <= |placements|
      invariant forall i :: 0 <= i < low ==> placements[i].start <= offset
      invariant forall i :: high <= i < |placements| ==> offset < placements[i].start
    {
      var middle := (low + high) / 2;
      if placements[middle].start <= offset {
        low := middle + 1;
      } else {
        high := middle;
      }
    }
    k := low;
    HomeUnique(placements, offset, k);
  }

  function Relocated(placements: seq<Placement>, r: TextRef): TextRef {
    if r.length == 0 then TextRef(0, 0)
    else
      var k := Home(placements, r.offset);
      if k == 0 then TextRef(0, 0)
      else TextRef(placements[k - 1].destination + r.offset - placements[k - 1].start, r.length)
  }

  method Relocate(placements: seq<Placement>, r: TextRef) returns (moved: TextRef)
    requires StartsOrdered(placements)
    requires r.length > 0 ==> Home(placements, r.offset) > 0
    ensures moved == Relocated(placements, r)
  {
    if r.length == 0 {
      moved := TextRef(0, 0);
    } else {
      var k := PartitionPoint(placements, r.offset);
      var placement := placements[k - 1];
      moved := TextRef(placement.destination + r.offset - placement.start, r.length);
    }
  }

  lemma PlacementsOrdered(ranges: seq<Range>)
    requires Separated(ranges)
    ensures Proper(ranges) && StartsOrdered(Placements(ranges))
  {
  }

  /** The search finds the one range that holds the position. */
  lemma HomeIsHolder(ranges: seq<Range>, offset: nat, k: nat)
    requires Separated(ranges) && k < |ranges| && Within(ranges[k], offset)
    ensures Proper(ranges)
    ensures Home(Placements(ranges), offset) == k + 1
  {
    HomeUnique(Placements(ranges), offset, k + 1);
  }

  /** The place of a reference's text once range k was copied to the given destination. */
  function Shifted(r: TextRef, start: nat, destination: nat): TextRef
    requires start <= r.offset
  {
    TextRef(destination + (r.offset - start), r.length)
  }

  lemma ReadsInHead(head: Bytes, tail: Bytes, r: TextRef)
    requires Fits(head, r)
    ensures Fits(head + tail, r) && TextAt(head + tail, r) == TextAt(head, r)
  {
  }

  lemma SameReads(a: Bytes, r: TextRef, b: Bytes, q: TextRef)
    requires Fits(a, r) && Fits(b, q) && r.length == q.length
    requires forall p :: q.offset <= p < q.offset + q.length ==> b[p] == a[r.offset + (p - q.offset)]
    ensures TextAt(a, r) == TextAt(b, q)
  {
    forall i | 0 <= i < r.length ensures TextAt(a, r)[i] == TextAt(b, q)[i] {
      assert a[r.offset + i] == b[q.offset + i];
    }
  }

  lemma ReadsInTail(head: Bytes, text: Bytes, last: Range, r: TextRef)
    requires Inside(Span(r), last) && last.end <= |text|
    ensures var moved := Shifted(r, last.start, |head|);
            && Fits(head + text[last.start..last.end], moved)
            && TextAt(head + text[last.start..last.end], moved) == TextAt(text, r)
  {
    SameReads(head + text[last.start..last.end], Shifted(r, last.start, |head|), text, r);
  }

  lemma {:induction false} PackedReads(text: Bytes, ranges: seq<Range>, k: nat, r: TextRef)
    requires InArena(ranges, |text|) && k < |ranges| && Inside(Span(r), ranges[k])
    ensures var moved := Shifted(r, ranges[k].start, Total(ranges[..k]));
            && Fits(Packed(text, ranges), moved)
            && TextAt(Packed(text, ranges), moved) == TextAt(text, r)
  {
    var front, last := ranges[..|ranges| - 1], ranges[|ranges| - 1];
    if k < |front| {
      PackedReads(text, front, k, r);
      assert front[..k] == ranges[..k];
      ReadsInHead(Packed(text, front), text[last.start..last.end], Shifted(r, ranges[k].start, Total(ranges[..k])));
    } else {
      assert ranges[..k] == front;
      ReadsInTail(Packed(text, front), text, last, r);
    }
  }

  lemma RelocatedTo(ranges: seq<Range>, r: TextRef, k: nat)
    requires Separated(ranges) && Proper(ranges) && k < |ranges| && Inside(Span(r), ranges[k]) && r.length > 0
    ensures Home(Placements(ranges), r.offset) == k + 1
    ensures Relocated(Placements(ranges), r) == Shifted(r, ranges[k].start, Total(ranges[..k]))
  {
    HomeIsHolder(ranges, r.offset, k);
  }

  lemma RelocatedReadsAt(text: Bytes, ranges: seq<Range>, r: TextRef, k: nat)
    requires Separated(ranges) && InArena(ranges, |text|) && Fits(text, r)
    requires k < |ranges| && Inside(Span(r), ranges[k]) && r.length > 0
    ensures Home(Placements(ranges), r.offset) == k + 1
    ensures Fits(Packed(text, ranges), Relocated(Placements(ranges), r))
    ensures TextAt(Packed(text, ranges), Relocated(Placements(ranges), r)) == TextAt(text, r)
  {
    RelocatedTo(ranges, r, k);
    PackedReads(text, ranges, k, r);
  }

  /** Compaction keeps meaning: every reference the ranges were merged from reads the same text from
    * the packed arena after it was relocated. */
  lemma RelocatedReads(text: Bytes, ranges: seq<Range>, r: TextRef)
    requires Separated(ranges) && InArena(ranges, |text|) && Fits(text, r)
    requires r.length > 0 ==> Held(Span(r), ranges)
    ensures r.length > 0 ==> Home(Placements(ranges), r.offset) > 0
    ensures Fits(Packed(text, ranges), Relocated(Placements(ranges), r))
    ensures TextAt(Packed(text, ranges), Relocated(Placements(ranges), r)) == TextAt(text, r)
  {
    if r.length > 0 {
      var k := Holder(ranges, r);
      RelocatedReadsAt(text, ranges, r, k);
    }
  }

  lemma Holder(ranges: seq<Range>, r: TextRef) returns (k: nat)
    requires Held(Span(r), ranges)
    ensures k < |ranges| && Inside(Span(r), ranges[k])
  {
    var t :| t in ranges && Inside(Span(r), t);
    k :| 0 <= k < |ranges| && ranges[k] == t;
  }

  /** Every packed position comes from a position of one range. */
  lemma {:induction false} PackedOrigin(ranges: seq<Range>, p: nat) returns (k: nat)
    requires Proper(ranges) && p < Total(ranges)
    ensures k < |ranges| && Total(ranges[..k]) <= p < Total(ranges[..k]) + (ranges[k].end - ranges[k].start)
  {
    var front := ranges[..|ranges| - 1];
    if p < Total(front) {
      k := PackedOrigin(front, p);
      assert front[..k] == ranges[..k];
    } else {
      k := |front|;
    }
  }

  lemma SeparatedOnce(ranges: seq<Range>, j: nat, k: nat, p: int)
    requires Separated(ranges) && j < |ranges| && k < |ranges| && Within(ranges[j], p) && Within(ranges[k], p)
    ensures j == k
  {
  }

  /** Compaction leaves no dead byte: some relocated reference reads each position of the new arena. */
  lemma NoDeadByte(ranges: seq<Range>, spans: seq<Range>, p: nat) returns (s: Range)
    requires Merged(ranges, spans) && Proper(spans) && Proper(ranges) && p < Total(ranges)
    ensures s in spans && s.start <= s.end
    ensures Within(Span(Relocated(Placements(ranges), TextRef(s.start, s.end - s.start))), p)
  {
    var k := PackedOrigin(ranges, p);
    var origin := ranges[k].start + (p - Total(ranges[..k]));
    assert Within(ranges[k], origin);
    assert Covered(ranges, origin);
    s :| s in spans && Within(s, origin);
    var r := TextRef(s.start, s.end - s.start);
    assert Span(r) == s;
    var home := Holder(ranges, r);
    SeparatedOnce(ranges, home, k, origin);
    RelocatedTo(ranges, r, k);
  }

  /*** References as a sequence ***/

  function Spans(refs: seq<TextRef>): (spans: seq<Range>)
    ensures |spans| == |refs| && Proper(spans)
  {
    seq(|refs|, i requires 0 <= i < |refs| => Span(refs[i]))
  }

  ghost predicate Readable(text: Bytes, refs: seq<TextRef>) {
    forall i :: 0 <= i < |refs| ==> Fits(text, refs[i])
  }

  /** How many bytes of the arena some reference still reads. */
  ghost function LiveCount(text: Bytes, refs: seq<TextRef>): nat {
    |LiveBytes(Spans(refs), |text|)|
  }

  ghost predicate Images(placements: seq<Placement>, refs: seq<TextRef>, moved: seq<TextRef>) {
    && |moved| == |refs|
    && (forall i :: 0 <= i < |refs| ==> moved[i] == Relocated(placements, refs[i]))
  }

  lemma AllLive(spans: seq<Range>, n: nat)
    requires forall p :: 0 <= p < n ==> Covered(spans, p)
    ensures |LiveBytes(spans, n)| == n
  {
    IntervalSize(Range(0, n), LiveBytes(spans, n));
  }

  /** Every byte of the packed arena is live for the relocated references. */
  lemma PackedIsLive(text: Bytes, ranges: seq<Range>, refs: seq<TextRef>, moved: seq<TextRef>)
    requires Readable(text, refs) && Merged(ranges, Spans(refs)) && InArena(ranges, |text|)
    requires Images(Placements(ranges), refs, moved)
    ensures LiveCount(Packed(text, ranges), moved) == |Packed(text, ranges)| == LiveCount(text, refs)
  {
    hide Merged, LiveBytes, Relocated, Placements, Separated;
    var packed := Packed(text, ranges);
    MergedCount(ranges, Spans(refs), |text|);
    forall p | 0 <= p < |packed| ensures Covered(Spans(moved), p) {
      var s := NoDeadByte(ranges, Spans(refs), p);
      var i :| 0 <= i < |refs| && Spans(refs)[i] == s;
      assert refs[i] == TextRef(s.start, s.end - s.start);
      assert Spans(moved)[i] == Span(moved[i]);
    }
    AllLive(Spans(moved), |packed|);
  }

  lemma LiveAtMost(spans: seq<Range>, n: nat)
    ensures |LiveBytes(spans, n)| <= n
  {
    var live := LiveBytes(spans, n);
    var all := set p: int | 0 <= p < n && Within(Range(0, n), p);
    IntervalSize(Range(0, n), all);
    assert all == live + (all - live);
  }
}
