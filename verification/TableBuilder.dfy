/** Building a table: blocks are cut by size and indexed once the next key is known (table/table_builder.cc). */
module TableBuilders {
  import opened Wrappers
  import opened Keys
  import opened TwoLevel
  import opened Table

  // ---------- from keys between neighbouring blocks to the whole index ----------

  /** The index key of block `b` lies where the delayed separator puts it. */
  ghost predicate KeyBetween(index: seq<IndexEntry>, blockOf: nat -> seq<Entry>, b: nat)
    requires b < |index|
  {
    var es := blockOf(index[b].handle);
    && es != []
    && (|| index[b].key == es[|es| - 1].Ikey()
        || (es[|es| - 1].key < index[b].key.user
            && (b + 1 < |index| ==> blockOf(index[b + 1].handle) != []
                                    && index[b].key.user < blockOf(index[b + 1].handle)[0].key)))
  }

  ghost predicate KeysBetween(index: seq<IndexEntry>, blockOf: nat -> seq<Entry>) {
    forall b :: 0 <= b < |index| ==> KeyBetween(index, blockOf, b)
  }

  lemma BlockNonEmpty(index: seq<IndexEntry>, blockOf: nat -> seq<Entry>, b: nat)
    requires KeysBetween(index, blockOf) && b < |index|
    ensures blockOf(index[b].handle) != []
  {
    assert KeyBetween(index, blockOf, b);
  }

  /** Entries of later blocks come after the last one of this block and not before the first of the next. */
  lemma LaterEntry(index: seq<IndexEntry>, blockOf: nat -> seq<Entry>, b: nat, c: nat, e: Entry)
    requires Sorted(All(index, blockOf)) && KeysBetween(index, blockOf) && b < c < |index|
    requires e in blockOf(index[c].handle)
    ensures blockOf(index[b].handle) != [] && blockOf(index[b + 1].handle) != []
    ensures var es := blockOf(index[b].handle); Less(es[|es| - 1].Ikey(), e.Ikey())
    ensures !Less(e.Ikey(), blockOf(index[b + 1].handle)[0].Ikey())
  {
    hide All, Flat, Start, KeysBetween, Sorted;
    BlockNonEmpty(index, blockOf, b);
    BlockNonEmpty(index, blockOf, b + 1);
    var all, es, next, later := All(index, blockOf), blockOf(index[b].handle), blockOf(index[b + 1].handle),
    blockOf(index[c].handle);
    var j :| 0 <= j < |later| && later[j] == e;
    FlatAt(index, blockOf, b);
    FlatAt(index, blockOf, b + 1);
    FlatAt(index, blockOf, c);
    StartMonotone(index, blockOf, b + 1, c);
    var p, q, r := Start(index, blockOf, b) + |es| - 1, Start(index, blockOf, b + 1) + 0, Start(index, blockOf, c) + j;
    assert all[p] == es[|es| - 1] && all[q] == next[0] && all[r] == later[j];
    SortedAt(all, p, r);
    if q < r { SortedAt(all, q, r); }
  }

  lemma SortedAt(es: seq<Entry>, i: nat, j: nat)
    requires Sorted(es) && i < j < |es|
    ensures Less(es[i].Ikey(), es[j].Ikey())
  {
  }

  lemma StartMonotone(index: seq<IndexEntry>, blockOf: nat -> seq<Entry>, b: nat, c: nat)
    requires b <= c <= |index|
    ensures Start(index, blockOf, b) <= Start(index, blockOf, c)
  {
    FlatPrefix(index, blockOf, b, c);
  }

  lemma LessFacts(a: InternalKey, b: InternalKey, c: InternalKey)
    ensures !Less(a, a) && (Less(a, b) && Less(b, c) ==> Less(a, c))
    ensures a.user < b.user ==> Less(a, b)
    ensures !Less(a, b) ==> b.user <= a.user
    ensures Less(a, b) && !Less(c, b) ==> Less(a, c)
  {
  }

  /** Neighbouring blocks settle it for all: the index separates, is tight and increases. */
  lemma IndexPromises(index: seq<IndexEntry>, blockOf: nat -> seq<Entry>)
    requires Sorted(All(index, blockOf)) && KeysBetween(index, blockOf)
    ensures Separates(index, blockOf) && Tight(index, blockOf) && IndexIncreasing(index)
  {
    hide All, Flat, Start, Sorted, KeysBetween, KeyBetween;
    forall b, e: Entry | 0 <= b < |index| && e in blockOf(index[b].handle) ensures !Less(index[b].key, e.Ikey()) {
      OwnEntries(index, blockOf, b, e);
    }
    forall b, c, e: Entry | 0 <= b < c < |index| && e in blockOf(index[c].handle) ensures Less(index[b].key, e.Ikey()) {
      LaterAfterKey(index, blockOf, b, c, e);
    }
    forall b | 0 <= b < |index| ensures TightAt(index, blockOf, b) {
      TightHere(index, blockOf, b);
    }
    forall b, c | 0 <= b < c < |index| ensures Less(index[b].key, index[c].key) {
      BlockNonEmpty(index, blockOf, c);
      var e := blockOf(index[c].handle)[0];
      assert e in blockOf(index[c].handle);
      LaterAfterKey(index, blockOf, b, c, e);
      OwnEntries(index, blockOf, c, e);
      LessFacts(index[b].key, e.Ikey(), index[c].key);
    }
  }

  lemma OwnEntries(index: seq<IndexEntry>, blockOf: nat -> seq<Entry>, b: nat, e: Entry)
    requires Sorted(All(index, blockOf)) && KeysBetween(index, blockOf) && b < |index| && e in blockOf(index[b].handle)
    ensures !Less(index[b].key, e.Ikey())
  {
    hide All, Flat, Start;
    assert KeyBetween(index, blockOf, b);
    BlockSorted(index, blockOf, b);
    var es := blockOf(index[b].handle);
    var j :| 0 <= j < |es| && es[j] == e;
    var last := es[|es| - 1].Ikey();
    if j < |es| - 1 { SortedAt(es, j, |es| - 1); }
    LessFacts(last, index[b].key, e.Ikey());
    LessFacts(index[b].key, e.Ikey(), last);
  }

  lemma LaterAfterKey(index: seq<IndexEntry>, blockOf: nat -> seq<Entry>, b: nat, c: nat, e: Entry)
    requires Sorted(All(index, blockOf)) && KeysBetween(index, blockOf) && b < c < |index|
    requires e in blockOf(index[c].handle)
    ensures Less(index[b].key, e.Ikey())
  {
    hide All, Flat, Start, Sorted;
    LaterEntry(index, blockOf, b, c, e);
    assert KeyBetween(index, blockOf, b);
    var next := blockOf(index[b + 1].handle)[0].Ikey();
    LessFacts(index[b].key, next, e.Ikey());
  }

  lemma TightHere(index: seq<IndexEntry>, blockOf: nat -> seq<Entry>, b: nat)
    requires Sorted(All(index, blockOf)) && KeysBetween(index, blockOf) && b < |index|
    ensures TightAt(index, blockOf, b)
  {
    hide All, Flat, Start, Sorted;
    assert KeyBetween(index, blockOf, b);
    var es := blockOf(index[b].handle);
    if index[b].key != es[|es| - 1].Ikey() {
      forall c, e: Entry | b < c < |index| && e in blockOf(index[c].handle) ensures index[b].key.user < e.key {
        LaterEntry(index, blockOf, b, c, e);
        LessFacts(e.Ikey(), blockOf(index[b + 1].handle)[0].Ikey(), index[b].key);
      }
    }
  }

  // ---------- the builder ----------

  /** Which block was written at an offset. */
  function BlockAt(offsets: seq<nat>, blocks: seq<seq<UserEntry>>, offset: nat): seq<Entry>
    requires |offsets| == |blocks|
  {
    if offsets == [] then [] else
      var n := |offsets| - 1;
      if offsets[n] == offset then Plain(blocks[n]) else BlockAt(offsets[..n], blocks[..n], offset)
  }

  function IndexOf(keys: seq<IKey>, offsets: seq<nat>): (r: seq<IndexEntry>)
    requires |keys| <= |offsets|
    ensures |r| == |keys|
  {
    seq(|keys|, i requires 0 <= i < |keys| => IndexEntry(keys[i].Ranked(), offsets[i]))
  }

  ghost predicate Increasing(offsets: seq<nat>, limit: nat) {
    && (forall i, j :: 0 <= i < j < |offsets| ==> offsets[i] < offsets[j])
    && (forall i :: 0 <= i < |offsets| ==> offsets[i] < limit)
  }

  class TableBuilder {
    /** Stand for the block's encoded size and the size limit on data blocks. */
    const encodedSize: seq<UserEntry> -> nat
    const blockSize: nat
    var offset: nat
    var dataBlock: seq<UserEntry>
    var lastKey: IKey
    var numEntries: nat
    var pendingIndexEntry: bool
    var closed: bool
    /** The data blocks in the file, where each begins, and the keys of the index block. */
    var blocks: seq<seq<UserEntry>>
    var offsets: seq<nat>
    var keys: seq<IKey>
    ghost var added: seq<UserEntry>

    ghost predicate Valid()
      reads this
    {
      && Filed(added, blocks, dataBlock, offsets, offset, keys) && numEntries == |added|
      && (pendingIndexEntry ==> dataBlock == [] && blocks != [])
      && |keys| + (if pendingIndexEntry then 1 else 0) == |blocks|
      && (!pendingIndexEntry && !closed && blocks != [] ==> dataBlock != [])
      && (added != [] && !closed ==> lastKey == added[|added| - 1].Key())
    }

    constructor (encodedSize: seq<UserEntry> -> nat, blockSize: nat)
      ensures Valid() && !closed && added == []
    {
      this.encodedSize, this.blockSize := encodedSize, blockSize;
      offset, dataBlock, lastKey, numEntries, pendingIndexEntry, closed := 0, [], IKey([], 0), 0, false, false;
      blocks, offsets, keys, added := [], [], [], [];
    }

    method Add(e: UserEntry)
      requires Valid() && !closed && (added != [] ==> Less(lastKey.Ranked(), e.Key().Ranked()))
      modifies this
      ensures Valid() && !closed && added == old(added) + [e]
    {
      hide Filed, Less, Shortened, Pack;
      if pendingIndexEntry {
        FiledNonEmpty(added, blocks, dataBlock, offsets, offset, keys);
        var key := FindShortestInternalSeparator(lastKey, e.Key());
        FiledAddPending(added, blocks, offsets, offset, keys, e, key);
        keys := keys + [key];
        pendingIndexEntry := false;
      } else {
        FiledAdd(added, blocks, dataBlock, offsets, offset, keys, e);
      }
      lastKey := e.Key();
      numEntries := numEntries + 1;
      assert [] + [e] == [e];
      dataBlock := dataBlock + [e];
      added := added + [e];
      assert Valid();
      if encodedSize(dataBlock) >= blockSize {
        Flush();
      }
    }

    method Flush()
      requires Valid() && !closed
      modifies this
      ensures Valid() && !closed && added == old(added) && dataBlock == [] && (blocks != [] ==> pendingIndexEntry)
    {
      hide Filed;
      if dataBlock == [] {
        return;
      }
      // the block, its type byte and its checksum
      var size := encodedSize(dataBlock) + 5;
      FiledFlush(added, blocks, dataBlock, offsets, offset, keys, size);
      blocks := blocks + [dataBlock];
      offsets := offsets + [offset];
      offset := offset + size;
      dataBlock := [];
      pendingIndexEntry := true;
    }

    /** Afterwards the index leads every lookup to the one block that can answer it. */
    method Finish()
      requires Valid() && !closed
      modifies this
      ensures Valid() && closed && added == old(added) && |keys| == |blocks| == |offsets| && dataBlock == []
      ensures var index, blockOf := IndexOf(keys, offsets), BlockOf(offsets, blocks);
              && All(index, blockOf) == Plain(added)
              && Separates(index, blockOf) && Tight(index, blockOf) && IndexIncreasing(index)
    {
      hide Filed, Separates, Tight, IndexIncreasing, All, Plain, Less, Shortened;
      Flush();
      closed := true;
      if pendingIndexEntry {
        FiledNonEmpty(added, blocks, dataBlock, offsets, offset, keys);
        var key := FindShortInternalSuccessor(lastKey);
        FiledLast(added, blocks, offsets, offset, keys, key);
        lastKey := key;
        keys := keys + [key];
        pendingIndexEntry := false;
      }
      Finished(added, keys, blocks, offsets, offset);
    }
  }

  /** The entries are in the file's blocks and the block being filled; the index keys so far fit. */
  ghost predicate Filed(added: seq<UserEntry>, blocks: seq<seq<UserEntry>>, dataBlock: seq<UserEntry>,
                        offsets: seq<nat>, limit: nat, keys: seq<IKey>)
  {
    && Sorted(Plain(added)) && Concat(blocks) + dataBlock == added
    && |offsets| == |blocks| && Increasing(offsets, limit)
    && (forall i :: 0 <= i < |blocks| ==> blocks[i] != [])
    && |keys| <= |blocks| && (forall i :: 0 <= i < |keys| ==> KeyFits(keys, blocks, dataBlock, i))
  }

  lemma FiledNonEmpty(added: seq<UserEntry>, blocks: seq<seq<UserEntry>>, dataBlock: seq<UserEntry>, offsets: seq<nat>,
                      limit: nat, keys: seq<IKey>)
    requires Filed(added, blocks, dataBlock, offsets, limit, keys) && blocks != []
    ensures added != []
  {
    hide Sorted, Plain, Increasing, KeyFits;
    FlattenLast(blocks);
  }

  lemma FiledAdd(added: seq<UserEntry>, blocks: seq<seq<UserEntry>>, dataBlock: seq<UserEntry>, offsets: seq<nat>,
                 limit: nat, keys: seq<IKey>, e: UserEntry)
    requires Filed(added, blocks, dataBlock, offsets, limit, keys) && |keys| == |blocks|
    requires (blocks != [] ==> dataBlock != [])
    requires added != [] ==> Less(added[|added| - 1].Key().Ranked(), e.Key().Ranked())
    ensures Filed(added + [e], blocks, dataBlock + [e], offsets, limit, keys)
  {
    hide Sorted, Plain, Less, Concat, Increasing, KeyFits;
    AddSorted(added, e);
    KeysStillFit(keys, blocks, dataBlock, e);
    assert Concat(blocks) + (dataBlock + [e]) == Concat(blocks) + dataBlock + [e];
  }

  lemma FiledAddPending(added: seq<UserEntry>, blocks: seq<seq<UserEntry>>, offsets: seq<nat>, limit: nat,
                        keys: seq<IKey>, e: UserEntry, key: IKey)
    requires Filed(added, blocks, [], offsets, limit, keys) && |keys| + 1 == |blocks| && added != []
    requires Less(added[|added| - 1].Key().Ranked(), e.Key().Ranked())
    requires Shortened(added[|added| - 1].Key(), Some(e.Key()), key)
    ensures Filed(added + [e], blocks, [e], offsets, limit, keys + [key])
  {
    hide Sorted, Plain, Less, Concat, Increasing, KeyFits, Shortened;
    AddSorted(added, e);
    FlattenLast(blocks);
    assert Concat(blocks) + [] == Concat(blocks);
    NewKeyFits(keys, blocks, e, key);
    assert [] + [e] == [e];
  }

  lemma FiledFlush(added: seq<UserEntry>, blocks: seq<seq<UserEntry>>, dataBlock: seq<UserEntry>, offsets: seq<nat>,
                   limit: nat, keys: seq<IKey>, size: nat)
    requires Filed(added, blocks, dataBlock, offsets, limit, keys) && |keys| == |blocks| && dataBlock != [] && size > 0
    ensures Filed(added, blocks + [dataBlock], [], offsets + [limit], limit + size, keys)
  {
    hide Sorted, Plain, Concat, KeyFits;
    FlattenMore(blocks, dataBlock);
    WrittenKeysFit(keys, blocks, dataBlock);
  }

  lemma FiledLast(added: seq<UserEntry>, blocks: seq<seq<UserEntry>>, offsets: seq<nat>, limit: nat, keys: seq<IKey>,
                  key: IKey)
    requires Filed(added, blocks, [], offsets, limit, keys) && |keys| + 1 == |blocks| && added != []
    requires Shortened(added[|added| - 1].Key(), None, key)
    ensures Filed(added, blocks, [], offsets, limit, keys + [key])
  {
    hide Sorted, Plain, Concat, Increasing, KeyFits, Shortened;
    FlattenLast(blocks);
    assert Concat(blocks) + [] == Concat(blocks);
    LastKeyFits(keys, blocks, key);
  }

  function BlockOf(offsets: seq<nat>, blocks: seq<seq<UserEntry>>): nat -> seq<Entry>
    requires |offsets| == |blocks|
  {
    (h: nat) => BlockAt(offsets, blocks, h)
  }

  lemma AddSorted(es: seq<UserEntry>, e: UserEntry)
    requires Sorted(Plain(es)) && (es != [] ==> Less(es[|es| - 1].Key().Ranked(), e.Key().Ranked()))
    ensures Sorted(Plain(es + [e]))
  {
    var all := Plain(es + [e]);
    forall i, j | 0 <= i < j < |all| ensures Less(all[i].Ikey(), all[j].Ikey()) {
      if j < |es| {
        assert Less(Plain(es)[i].Ikey(), Plain(es)[j].Ikey());
      } else if i < |es| - 1 {
        assert Less(Plain(es)[i].Ikey(), Plain(es)[|es| - 1].Ikey());
        LessFacts(Plain(es)[i].Ikey(), Plain(es)[|es| - 1].Ikey(), all[j].Ikey());
      }
    }
  }

  lemma FlattenLast(blocks: seq<seq<UserEntry>>)
    requires blocks != [] && blocks[|blocks| - 1] != []
    ensures Concat(blocks) != []
    ensures var b := blocks[|blocks| - 1]; Concat(blocks)[|Concat(blocks)| - 1] == b[|b| - 1]
  {
  }

  lemma FlattenMore(blocks: seq<seq<UserEntry>>, b: seq<UserEntry>)
    ensures Concat(blocks + [b]) == Concat(blocks) + b && Concat(blocks + [b]) + [] == Concat(blocks) + b
  {
    assert (blocks + [b])[..|blocks|] == blocks;
  }

  lemma NewKeyFits(keys: seq<IKey>, blocks: seq<seq<UserEntry>>, e: UserEntry, key: IKey)
    requires |keys| + 1 == |blocks| && blocks[|blocks| - 1] != []
    requires forall i :: 0 <= i < |keys| ==> KeyFits(keys, blocks, [], i)
    requires var b := blocks[|blocks| - 1]; Shortened(b[|b| - 1].Key(), Some(e.Key()), key)
    ensures forall i :: 0 <= i < |keys| + 1 ==> KeyFits(keys + [key], blocks, [] + [e], i)
  {
    forall i | 0 <= i < |keys| + 1 ensures KeyFits(keys + [key], blocks, [] + [e], i) {
      if i < |keys| { assert KeyFits(keys, blocks, [], i); }
    }
  }

  lemma LastKeyFits(keys: seq<IKey>, blocks: seq<seq<UserEntry>>, key: IKey)
    requires |keys| + 1 == |blocks| && blocks[|blocks| - 1] != []
    requires forall i :: 0 <= i < |keys| ==> KeyFits(keys, blocks, [], i)
    requires var b := blocks[|blocks| - 1]; Shortened(b[|b| - 1].Key(), None, key)
    ensures forall i :: 0 <= i < |keys| + 1 ==> KeyFits(keys + [key], blocks, [], i)
  {
    forall i | 0 <= i < |keys| + 1 ensures KeyFits(keys + [key], blocks, [], i) {
      if i < |keys| { assert KeyFits(keys, blocks, [], i); }
    }
  }

  lemma KeysStillFit(keys: seq<IKey>, blocks: seq<seq<UserEntry>>, dataBlock: seq<UserEntry>, e: UserEntry)
    requires |keys| == |blocks| && (blocks != [] ==> dataBlock != [])
    requires forall i :: 0 <= i < |keys| ==> KeyFits(keys, blocks, dataBlock, i)
    ensures forall i :: 0 <= i < |keys| ==> KeyFits(keys, blocks, dataBlock + [e], i)
  {
    forall i | 0 <= i < |keys| ensures KeyFits(keys, blocks, dataBlock + [e], i) {
      assert KeyFits(keys, blocks, dataBlock, i);
    }
  }

  lemma WrittenKeysFit(keys: seq<IKey>, blocks: seq<seq<UserEntry>>, dataBlock: seq<UserEntry>)
    requires |keys| == |blocks| && dataBlock != []
    requires forall i :: 0 <= i < |keys| ==> KeyFits(keys, blocks, dataBlock, i)
    ensures forall i :: 0 <= i < |keys| ==> KeyFits(keys, blocks + [dataBlock], [], i)
  {
    forall i | 0 <= i < |keys| ensures KeyFits(keys, blocks + [dataBlock], [], i) {
      assert KeyFits(keys, blocks, dataBlock, i);
    }
  }

  lemma {:induction false} BlockAtOffset(offsets: seq<nat>, blocks: seq<seq<UserEntry>>, limit: nat, i: nat)
    requires |offsets| == |blocks| && Increasing(offsets, limit) && i < |offsets|
    ensures BlockAt(offsets, blocks, offsets[i]) == Plain(blocks[i])
  {
    var n := |offsets| - 1;
    if i < n {
      BlockAtOffset(offsets[..n], blocks[..n], limit, i);
    }
  }

  lemma {:induction false} FlatIsFlatten(keys: seq<IKey>, blocks: seq<seq<UserEntry>>, offsets: seq<nat>, limit: nat,
                                         n: nat)
    requires |keys| == |blocks| == |offsets| && Increasing(offsets, limit) && n <= |blocks|
    ensures Flat(IndexOf(keys, offsets), BlockOf(offsets, blocks), n) == Plain(Concat(blocks[..n]))
  {
    hide BlockAt, Increasing;
    if n > 0 {
      FlatIsFlatten(keys, blocks, offsets, limit, n - 1);
      BlockAtOffset(offsets, blocks, limit, n - 1);
      assert blocks[..n][..n - 1] == blocks[..n - 1];
      PlainConcat(Concat(blocks[..n - 1]), blocks[n - 1]);
    }
  }

  lemma PlainConcat(a: seq<UserEntry>, b: seq<UserEntry>)
    ensures Plain(a + b) == Plain(a) + Plain(b)
  {
  }

  lemma Finished(added: seq<UserEntry>, keys: seq<IKey>, blocks: seq<seq<UserEntry>>, offsets: seq<nat>, limit: nat)
    requires Filed(added, blocks, [], offsets, limit, keys) && |keys| == |blocks|
    ensures |offsets| == |blocks|
    ensures var index, blockOf := IndexOf(keys, offsets), BlockOf(offsets, blocks);
            && All(index, blockOf) == Plain(added)
            && Separates(index, blockOf) && Tight(index, blockOf) && IndexIncreasing(index)
  {
    hide Sorted, Plain, Concat, Increasing, KeyFits, KeyBetween, Separates, Tight, IndexIncreasing;
    var index, blockOf := IndexOf(keys, offsets), BlockOf(offsets, blocks);
    assert Concat(blocks) + [] == Concat(blocks);
    FlatIsFlatten(keys, blocks, offsets, limit, |blocks|);
    assert blocks[..|blocks|] == blocks;
    forall b | 0 <= b < |index| ensures KeyBetween(index, blockOf, b) {
      FitsBetween(keys, blocks, offsets, limit, b);
    }
    IndexPromises(index, blockOf);
  }

  lemma FitsBetween(keys: seq<IKey>, blocks: seq<seq<UserEntry>>, offsets: seq<nat>, limit: nat, b: nat)
    requires |keys| == |blocks| == |offsets| && Increasing(offsets, limit) && b < |keys| && KeyFits(keys, blocks, [], b)
    ensures KeyBetween(IndexOf(keys, offsets), BlockOf(offsets, blocks), b)
  {
    hide BlockAt, Increasing, Rank;
    BlockAtOffset(offsets, blocks, limit, b);
    if b + 1 < |keys| { BlockAtOffset(offsets, blocks, limit, b + 1); }
  }

  /** The key fits between its block and what follows it, in the file or in the block being filled. */
  ghost predicate KeyFits(keys: seq<IKey>, blocks: seq<seq<UserEntry>>, dataBlock: seq<UserEntry>, i: nat)
    requires i < |keys| <= |blocks|
  {
    && blocks[i] != []
    && (i + 1 < |blocks| ==> blocks[i + 1] != [])
    && var next := if i + 1 < |blocks| then Some(blocks[i + 1][0].Key())
                   else if dataBlock != [] then Some(dataBlock[0].Key()) else None;
       Shortened(blocks[i][|blocks[i]| - 1].Key(), next, keys[i])
  }
}
