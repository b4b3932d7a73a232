/** A vector in blocks of 4096 (core/src/chunked_vec.rs). The sharing of blocks between clones is the
  * subject of the module Sharing; here a vector owns its blocks. */
module ChunkedVec {
  import opened Common

  const CHUNK_LENGTH := 4096

  function Flat<T>(chunks: seq<seq<T>>): seq<T> {
    if chunks == [] then [] else Flat(chunks[..|chunks| - 1]) + chunks[|chunks| - 1]
  }

  /** All blocks but the last are full, and none is empty. */
  ghost predicate Packed<T>(chunks: seq<seq<T>>) {
    forall k :: 0 <= k < |chunks| ==>
      0 < |chunks[k]| <= CHUNK_LENGTH && (k + 1 < |chunks| ==> |chunks[k]| == CHUNK_LENGTH)
  }

  lemma {:induction false} FlatLength<T>(chunks: seq<seq<T>>)
    requires Packed(chunks) && chunks != []
    ensures |Flat(chunks)| == CHUNK_LENGTH * (|chunks| - 1) + |chunks[|chunks| - 1]|
  {
    var front := chunks[..|chunks| - 1];
    if front != [] {
      FlatLength(front);
    }
  }

  /** Slot arithmetic finds exactly the item at the slot's position. */
  lemma {:induction false} FlatAt<T>(chunks: seq<seq<T>>, slot: nat)
    requires Packed(chunks)
    ensures slot < |Flat(chunks)| <==>
            slot / CHUNK_LENGTH < |chunks| && slot % CHUNK_LENGTH < |chunks[slot / CHUNK_LENGTH]|
    ensures slot < |Flat(chunks)| ==> Flat(chunks)[slot] == chunks[slot / CHUNK_LENGTH][slot % CHUNK_LENGTH]
  {
    if chunks != [] {
      FlatLength(chunks);
      var front := chunks[..|chunks| - 1];
      FlatAt(front, slot);
      if front != [] {
        FlatLength(front);
      }
    }
  }

  lemma {:induction false} FlatUpdate<T>(chunks: seq<seq<T>>, slot: nat, value: T)
    requires Packed(chunks) && slot < |Flat(chunks)|
    ensures slot / CHUNK_LENGTH < |chunks| && slot % CHUNK_LENGTH < |chunks[slot / CHUNK_LENGTH]|
    ensures var block := slot / CHUNK_LENGTH;
            Flat(chunks[block := chunks[block][slot % CHUNK_LENGTH := value]]) == Flat(chunks)[slot := value]
  {
    FlatAt(chunks, slot);
    FlatLength(chunks);
    var block := slot / CHUNK_LENGTH;
    var after := chunks[block := chunks[block][slot % CHUNK_LENGTH := value]];
    var front := chunks[..|chunks| - 1];
    if block < |front| {
      FlatAt(front, slot);
      FlatUpdate(front, slot, value);
      assert after[..|after| - 1] == front[block := front[block][slot % CHUNK_LENGTH := value]];
    } else {
      assert after[..|after| - 1] == front;
      if front != [] {
        FlatLength(front);
      }
    }
  }

  class ChunkedVec<T> {
    var chunks: seq<seq<T>>
    var length: nat

    ghost predicate Valid()
      reads this
    {
      Packed(chunks) && length == |Flat(chunks)|
    }

    ghost function Items(): seq<T>
      reads this
    {
      Flat(chunks)
    }

    constructor ()
      ensures Valid() && Items() == []
    {
      chunks, length := [], 0;
    }

    function Get(slot: nat): (item: Option<T>)
      requires Valid()
      reads this
      ensures item == if slot < |Items()| then Some(Items()[slot]) else None
    {
      FlatAt(chunks, slot);
      if slot / CHUNK_LENGTH < |chunks| then
        var chunk := chunks[slot / CHUNK_LENGTH];
        if slot % CHUNK_LENGTH < |chunk| then Some(chunk[slot % CHUNK_LENGTH]) else None
      else None
    }

    function Last(): (item: Option<T>)
      requires Valid()
      reads this
      ensures item == if Items() == [] then None else Some(Items()[|Items()| - 1])
    {
      if length == 0 then None else Get(length - 1)
    }

    method Push(value: T)
      requires Valid()
      modifies this
      ensures Valid() && Items() == old(Items()) + [value]
    {
      if chunks != [] {
        FlatLength(chunks);
      }
      if length % CHUNK_LENGTH == 0 {
        chunks := chunks + [[]];
      }
      var last := |chunks| - 1;
      ghost var front := chunks[..last];
      chunks := chunks[last := chunks[last] + [value]];
      assert chunks[..last] == front == old(chunks)[..last];
      length := length + 1;
    }

    /** index_mut, with the value that the caller assigns through the reference. */
    method Assign(slot: nat, value: T)
      requires Valid() && slot < length
      modifies this
      ensures Valid() && Items() == old(Items())[slot := value]
    {
      FlatUpdate(chunks, slot, value);
      var block := slot / CHUNK_LENGTH;
      chunks := chunks[block := chunks[block][slot % CHUNK_LENGTH := value]];
    }

    /** from_iter: blocks of 4096 items until the input ends. */
    constructor FromItems(items: seq<T>)
      ensures Valid() && Items() == items
    {
      var rest, built, count := items, [], 0;
      while true
        invariant Packed(built) && (rest != [] ==> forall k :: 0 <= k < |built| ==> |built[k]| == CHUNK_LENGTH)
        invariant count == |Flat(built)| && Flat(built) + rest == items
        decreases |rest|
      {
        var chunk := if |rest| < CHUNK_LENGTH then rest else rest[..CHUNK_LENGTH];
        if chunk == [] {
          break;
        }
        rest := rest[|chunk|..];
        count := count + |chunk|;
        built := built + [chunk];
        assert built[..|built| - 1] + [chunk] == built;
      }
      chunks, length := built, count;
    }
  }
}
