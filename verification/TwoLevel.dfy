/**
 TwoLevelIterator (table/two_level_iterator.cc): an index of blocks, each a sorted list,
 shown as one list; empty blocks are skipped in both directions.
 */
module TwoLevel {
  import opened Keys
  import opened Cursors

  datatype IndexEntry = IndexEntry(key: InternalKey, handle: nat)

  /** The first index entry whose key is at or after `target`. */
  function IndexSeek(index: seq<IndexEntry>, target: InternalKey): nat {
    if index == [] then 0
    else if !Less(index[0].key, target) then 0
    else 1 + IndexSeek(index[1..], target)
  }

  lemma {:induction false} IndexSeekStops(index: seq<IndexEntry>, target: InternalKey)
    ensures IndexSeek(index, target) <= |index|
    ensures forall i :: 0 <= i < IndexSeek(index, target) ==> Less(index[i].key, target)
    ensures IndexSeek(index, target) < |index| ==> !Less(index[IndexSeek(index, target)].key, target)
  {
    if index != [] && Less(index[0].key, target) {
      IndexSeekStops(index[1..], target);
      assert forall i :: 1 <= i < |index| ==> index[i] == index[1..][i - 1];
    }
  }

  /** The entries of the first `n` blocks, in order. */
  function Flat(index: seq<IndexEntry>, blockOf: nat -> seq<Entry>, n: nat): seq<Entry>
    requires n <= |index|
  {
    if n == 0 then [] else Flat(index, blockOf, n - 1) + blockOf(index[n - 1].handle)
  }

  function All(index: seq<IndexEntry>, blockOf: nat -> seq<Entry>): seq<Entry> { Flat(index, blockOf, |index|) }

  function Start(index: seq<IndexEntry>, blockOf: nat -> seq<Entry>, n: nat): nat
    requires n <= |index|
  {
    |Flat(index, blockOf, n)|
  }

  lemma {:induction false} FlatPrefix(index: seq<IndexEntry>, blockOf: nat -> seq<Entry>, n: nat, m: nat)
    requires n <= m <= |index|
    ensures Flat(index, blockOf, n) <= Flat(index, blockOf, m)
    decreases m - n
  {
    if n < m {
      FlatPrefix(index, blockOf, n, m - 1);
    }
  }

  /** Entry `j` of block `b` is entry Start(b) + j of the whole. */
  lemma FlatAt(index: seq<IndexEntry>, blockOf: nat -> seq<Entry>, b: nat)
    requires b < |index|
    ensures Start(index, blockOf, b + 1) ==
              Start(index, blockOf, b) + |blockOf(index[b].handle)| <= |All(index, blockOf)|
    ensures (b == 0 ==> Start(index, blockOf, b) == 0)
    ensures (b + 1 == |index| ==> Start(index, blockOf, b + 1) == |All(index, blockOf)|)
    ensures forall j :: 0 <= j < |blockOf(index[b].handle)| ==>
              All(index, blockOf)[Start(index, blockOf, b) + j] == blockOf(index[b].handle)[j]
  {
    FlatPrefix(index, blockOf, b + 1, |index|);
  }

  lemma NoBlocks(index: seq<IndexEntry>, blockOf: nat -> seq<Entry>)
    requires index == []
    ensures Start(index, blockOf, 0) == 0 == |All(index, blockOf)|
  {
  }

  /** Every index key lies at or after its own block and before all later ones. */
  ghost predicate Separates(index: seq<IndexEntry>, blockOf: nat -> seq<Entry>) {
    && Sorted(All(index, blockOf))
    && (forall b, e: Entry :: 0 <= b < |index| && e in blockOf(index[b].handle) ==> !Less(index[b].key, e.Ikey()))
    && (forall b, c, e: Entry :: 0 <= b < c < |index| && e in blockOf(index[c].handle) ==> Less(index[b].key, e.Ikey()))
  }

  class IndexCursor {
    const index: seq<IndexEntry>
    var pos: nat

    constructor (index: seq<IndexEntry>)
      ensures this.index == index && pos == |index|
    {
      this.index := index;
      pos := |index|;
    }

    predicate Valid()
      reads this
    {
      pos < |index|
    }

    method SeekToFirst()
      modifies this
      ensures pos == 0
    {
      pos := 0;
    }

    method SeekToLast()
      modifies this
      ensures pos == if index == [] then 0 else |index| - 1
    {
      pos := if index == [] then 0 else |index| - 1;
    }

    method Seek(target: InternalKey)
      modifies this
      ensures pos == IndexSeek(index, target)
    {
      pos := IndexSeek(index, target);
    }

    method Next()
      requires Valid()
      modifies this
      ensures pos == old(pos) + 1
    {
      pos := pos + 1;
    }

    method Prev()
      requires Valid()
      modifies this
      ensures pos == if old(pos) == 0 then |index| else old(pos) - 1
    {
      pos := if pos == 0 then |index| else pos - 1;
    }
  }

  class TwoLevelIterator {
    const indexIter: IndexCursor
    const blockOf: nat -> seq<Entry>
    var dataIter: Cursor?
    var dataHandle: nat

    /** The data iterator, if any, walks the block its remembered handle names. */
    ghost predicate DataOk()
      reads this, indexIter, dataIter
    {
      && indexIter.pos <= |indexIter.index|
      && (dataIter != null ==> dataIter.es == blockOf(dataHandle) && dataIter.pos <= |dataIter.es|)
    }

    /** ... and that is the block the index stands at. */
    ghost predicate Together()
      reads this, indexIter, dataIter
    {
      && DataOk()
      && (dataIter == null <==> !indexIter.Valid())
      && (dataIter != null ==> dataHandle == indexIter.index[indexIter.pos].handle)
    }

    ghost predicate Ok()
      reads this, indexIter, dataIter
    {
      DataOk() && (dataIter != null ==> Together() && dataIter.Valid())
    }

    /** The place in the whole list, its length if nowhere. */
    ghost function At(): nat
      requires Ok()
      reads this, indexIter, dataIter
    {
      if dataIter == null then |All(indexIter.index, blockOf)|
      else Start(indexIter.index, blockOf, indexIter.pos) + dataIter.pos
    }

    constructor (indexIter: IndexCursor, blockOf: nat -> seq<Entry>)
      requires indexIter.pos <= |indexIter.index|
      ensures Ok() && this.indexIter == indexIter && this.blockOf == blockOf && dataIter == null
    {
      this.indexIter := indexIter;
      this.blockOf := blockOf;
      dataIter, dataHandle := null, 0;
    }

    predicate Valid()
      reads this, dataIter
    {
      dataIter != null && dataIter.Valid()
    }

    /** What the caller sees is the entry at the iterator's place. */
    lemma Shows()
      requires Ok()
      ensures At() <= |All(indexIter.index, blockOf)| && (Valid() <==> At() < |All(indexIter.index, blockOf)|)
      ensures Valid() ==> dataIter.Current() == All(indexIter.index, blockOf)[At()]
    {
      if dataIter != null { FlatAt(indexIter.index, blockOf, indexIter.pos); }
    }

    /** A block is opened only when the index stands at another one than before. */
    method InitDataBlock()
      requires DataOk()
      modifies this`dataIter, this`dataHandle
      ensures Together() && (dataIter == null || dataIter == old(dataIter) || fresh(dataIter))
    {
      if !indexIter.Valid() {
        dataIter := null;
      } else {
        var handle := indexIter.index[indexIter.pos].handle;
        if dataIter != null && handle == dataHandle {
          // already open
        } else {
          dataIter := new Cursor(blockOf(handle));
          dataHandle := handle;
        }
      }
    }

    /** Forward to the first entry at or after the current place. */
    method SkipEmptyDataBlocksForward()
      requires Together()
      modifies this, indexIter, dataIter
      ensures Ok() && (dataIter == null || dataIter == old(dataIter) || fresh(dataIter))
      ensures At() == old(if dataIter == null then |All(indexIter.index, blockOf)|
                          else Start(indexIter.index, blockOf, indexIter.pos) + dataIter.pos)
    {
      hide All, Flat, Start;
      ghost var index := indexIter.index;
      ghost var p := if dataIter == null then |All(index, blockOf)|
                     else Start(index, blockOf, indexIter.pos) + dataIter.pos;
      while dataIter == null || !dataIter.Valid()
        invariant Together() && (dataIter == null || dataIter == old(dataIter) || fresh(dataIter))
        invariant p == if dataIter == null then |All(index, blockOf)|
                       else Start(index, blockOf, indexIter.pos) + dataIter.pos
        decreases |index| - indexIter.pos, dataIter != null
      {
        if !indexIter.Valid() {
          dataIter := null;
          return;
        }
        FlatAt(index, blockOf, indexIter.pos);
        indexIter.Next();
        InitDataBlock();
        if dataIter != null { dataIter.SeekToFirst(); }
      }
    }

    /** Back to the last entry before place `q`, where the data iterator stands at it or before its block. */
    method SkipEmptyDataBlocksBackward(ghost q: nat)
      requires Together()
      requires q == if dataIter == null then 0
                    else Start(indexIter.index, blockOf,
                               indexIter.pos) + if dataIter.Valid() then dataIter.pos + 1 else 0
      modifies this, indexIter, dataIter
      ensures Ok() && (dataIter == null || dataIter == old(dataIter) || fresh(dataIter))
      ensures At() == PrevPos(All(indexIter.index, blockOf), q)
    {
      hide All, Flat, Start;
      ghost var index := indexIter.index;
      while dataIter == null || !dataIter.Valid()
        invariant Together() && (dataIter == null || dataIter == old(dataIter) || fresh(dataIter))
        invariant q == if dataIter == null then 0
                       else Start(index, blockOf, indexIter.pos) + if dataIter.Valid() then dataIter.pos + 1 else 0
        decreases if indexIter.Valid() then indexIter.pos + 1 else 0
      {
        if !indexIter.Valid() {
          dataIter := null;
          return;
        }
        FlatAt(index, blockOf, indexIter.pos);
        indexIter.Prev();
        InitDataBlock();
        if dataIter != null {
          dataIter.SeekToLast();
          FlatAt(index, blockOf, indexIter.pos);
        }
      }
    }

    method Seek(target: InternalKey)
      requires Ok() && Separates(indexIter.index, blockOf)
      modifies this, indexIter, dataIter
      ensures Ok() && At() == SeekPos(All(indexIter.index, blockOf), target)
    {
      indexIter.Seek(target);
      IndexSeekStops(indexIter.index, target);
      InitDataBlock();
      if dataIter != null {
        dataIter.Seek(target);
        BlockSorted(indexIter.index, blockOf, indexIter.pos);
        SeekPosSplits(dataIter.es, target);
      }
      SeekLands(indexIter.index, blockOf, target);
      SkipEmptyDataBlocksForward();
    }

    method SeekToFirst()
      requires Ok()
      modifies this, indexIter, dataIter
      ensures Ok() && At() == 0
    {
      indexIter.SeekToFirst();
      InitDataBlock();
      if dataIter != null { dataIter.SeekToFirst(); }
      SkipEmptyDataBlocksForward();
    }

    method SeekToLast()
      requires Ok()
      modifies this, indexIter, dataIter
      ensures Ok() && At() == LastPos(All(indexIter.index, blockOf))
    {
      indexIter.SeekToLast();
      InitDataBlock();
      if dataIter != null {
        dataIter.SeekToLast();
        FlatAt(indexIter.index, blockOf, indexIter.pos);
      }
      SkipEmptyDataBlocksBackward(|All(indexIter.index, blockOf)|);
    }

    method Next()
      requires Ok() && Valid()
      modifies this, indexIter, dataIter
      ensures Ok() && At() == NextPos(All(indexIter.index, blockOf), old(At()))
    {
      dataIter.Next();
      SkipEmptyDataBlocksForward();
    }

    method Prev()
      requires Ok() && Valid()
      modifies this, indexIter, dataIter
      ensures Ok() && At() == PrevPos(All(indexIter.index, blockOf), old(At()))
    {
      ghost var q := At();
      dataIter.Prev();
      SkipEmptyDataBlocksBackward(q);
    }
  }

  lemma BlockSorted(index: seq<IndexEntry>, blockOf: nat -> seq<Entry>, b: nat)
    requires Sorted(All(index, blockOf)) && b < |index|
    ensures Sorted(blockOf(index[b].handle))
  {
    FlatAt(index, blockOf, b);
    hide All, Start, Flat;
    var all, es, s := All(index, blockOf), blockOf(index[b].handle), Start(index, blockOf, b);
    forall i, j | 0 <= i < j < |es| ensures Less(es[i].Ikey(), es[j].Ikey()) {
      assert Less(all[s + i].Ikey(), all[s + j].Ikey());
    }
  }

  /** Seeking in the index and then in one block finds the place of the target in the whole list. */
  lemma SeekLands(index: seq<IndexEntry>, blockOf: nat -> seq<Entry>, target: InternalKey)
    requires Separates(index, blockOf)
    ensures var b := IndexSeek(index, target);
            && b <= |index|
            && SeekPos(All(index, blockOf), target) ==
               if b == |index| then |All(index, blockOf)| else Start(index, blockOf,
                                                                     b) + SeekPos(blockOf(index[b].handle), target)
  {
    hide All, Flat, Sorted, SeekPos, IndexSeek, Start;
    var all, b := All(index, blockOf), IndexSeek(index, target);
    IndexSeekStops(index, target);
    if b < |index| {
      var es, s := blockOf(index[b].handle), Start(index, blockOf, b);
      BlockSorted(index, blockOf, b);
      SeekPosSplits(es, target);
      FlatAt(index, blockOf, b);
      var t := SeekPos(es, target);
      if t < |es| {
        assert all[s + t] == es[t];
      } else if s + t < |all| {
        LaterIsAfter(index, blockOf, target, s + t);
      }
      if t > 0 {
        assert all[s + t - 1] == es[t - 1];
      } else if s > 0 {
        EarlierIsBefore(index, blockOf, target, s - 1);
      }
      SeekPosIs(all, target, s + t);
    } else {
      assert Start(index, blockOf, |index|) == |all| by { if |index| > 0 { FlatAt(index, blockOf, |index| - 1); }
                                                          else { NoBlocks(index, blockOf); } }
      if |all| > 0 { EarlierIsBefore(index, blockOf, target, |all| - 1); }
      SeekPosIs(all, target, |all|);
    }
  }

  lemma SeekPosIs(es: seq<Entry>, target: InternalKey, p: nat)
    requires Sorted(es) && p <= |es|
    requires p > 0 ==> Less(es[p - 1].Ikey(), target)
    requires p < |es| ==> !Less(es[p].Ikey(), target)
    ensures SeekPos(es, target) == p
  {
    SeekPosSplits(es, target);
  }

  lemma {:induction false} BlockHolding(index: seq<IndexEntry>, blockOf: nat -> seq<Entry>, n: nat, i: nat)
    returns (c: nat)
    requires n <= |index| && i < Start(index, blockOf, n)
    ensures c < n && Start(index, blockOf, c) <= i < Start(index, blockOf, c + 1)
    ensures Flat(index, blockOf, n)[i] in blockOf(index[c].handle)
  {
    if i < Start(index, blockOf, n - 1) {
      c := BlockHolding(index, blockOf, n - 1, i);
    } else {
      c := n - 1;
    }
  }

  lemma EarlierIsBefore(index: seq<IndexEntry>, blockOf: nat -> seq<Entry>, target: InternalKey, i: nat)
    requires Separates(index, blockOf) && IndexSeek(index, target) <= |index|
    requires i < Start(index, blockOf, IndexSeek(index, target))
    ensures i < |All(index, blockOf)| && Less(All(index, blockOf)[i].Ikey(), target)
  {
    var b := IndexSeek(index, target);
    IndexSeekStops(index, target);
    var c := BlockHolding(index, blockOf, b, i);
    FlatPrefix(index, blockOf, b, |index|);
    assert Less(index[c].key, target);
  }

  lemma LaterIsAfter(index: seq<IndexEntry>, blockOf: nat -> seq<Entry>, target: InternalKey, i: nat)
    requires Separates(index, blockOf) && IndexSeek(index, target) < |index|
    requires Start(index, blockOf, IndexSeek(index, target) + 1) <= i < |All(index, blockOf)|
    ensures !Less(All(index, blockOf)[i].Ikey(), target)
  {
    hide Sorted, IndexSeek, Flat;
    var b := IndexSeek(index, target);
    IndexSeekStops(index, target);
    var c := BlockHolding(index, blockOf, |index|, i);
    if c <= b { FlatPrefix(index, blockOf, c + 1, b + 1); }
    assert Less(index[b].key, All(index, blockOf)[i].Ikey());
  }
}
