/**
 What every iterator promises (include/leveldb/iterator.h): a position in a sorted
 list of entries, or no position at all. Stepping off either end gives none.
 */
module Cursors {
  import opened Keys

  /** The first position at or after `target`, |es| if there is none. */
  function SeekPos(es: seq<Entry>, target: InternalKey): (i: nat)
    ensures i <= |es|
  {
    if es == [] || !Less(es[0].Ikey(), target) then 0 else 1 + SeekPos(es[1..], target)
  }

  function NextPos(es: seq<Entry>, pos: nat): nat { pos + 1 }

  function PrevPos(es: seq<Entry>, pos: nat): nat { if pos == 0 then |es| else pos - 1 }

  function LastPos(es: seq<Entry>): nat { if es == [] then 0 else |es| - 1 }

  /** In a sorted list, everything before the seek position is before the target and nothing after it is. */
  lemma {:induction false} SeekPosSplits(es: seq<Entry>, target: InternalKey)
    requires Sorted(es)
    ensures SeekPos(es, target) <= |es|
    ensures forall i :: 0 <= i < |es| ==> (Less(es[i].Ikey(), target) <==> i < SeekPos(es, target))
  {
    if es != [] && Less(es[0].Ikey(), target) {
      SeekPosSplits(es[1..], target);
      assert forall i :: 1 <= i < |es| ==> es[i] == es[1..][i - 1];
    }
  }

  /** An iterator over a list held in memory, the interface the others build on. */
  class Cursor {
    const es: seq<Entry>
    var pos: nat

    constructor (es: seq<Entry>)
      ensures this.es == es && pos == |es|
    {
      this.es := es;
      pos := |es|;
    }

    predicate Valid()
      reads this
    {
      pos < |es|
    }

    function Current(): Entry
      reads this
      requires Valid()
    {
      es[pos]
    }

    method SeekToFirst()
      modifies this
      ensures pos == 0
    {
      pos := 0;
    }

    method SeekToLast()
      modifies this
      ensures pos == LastPos(es)
    {
      pos := LastPos(es);
    }

    method Seek(target: InternalKey)
      modifies this
      ensures pos == SeekPos(es, target)
    {
      pos := SeekPos(es, target);
    }

    method Next()
      requires Valid()
      modifies this
      ensures pos == NextPos(es, old(pos))
    {
      pos := NextPos(es, pos);
    }

    method Prev()
      requires Valid()
      modifies this
      ensures pos == PrevPos(es, old(pos))
    {
      pos := PrevPos(es, pos);
    }
  }
}
