/**
 A table as bytes: data blocks, index block and filter block written one after
 the other, and a lookup that reads nothing but those bytes (table/table_builder.cc,
 table/table.cc, table/format.cc, db/dbformat.cc). The footer, which says where
 the index and filter blocks are, is left out; they are given.
 */
module TableFile {
  import opened Wrappers
  import opened Keys
  import opened Mvcc
  import opened Coding
  import opened Cursors
  import opened Versions
  import opened TwoLevel
  import opened Table
  import opened Block
  import opened LogFormat
  import BlockIter
  import Bloom
  import FilterBlock
  import TableBuilders

  // ---------- internal keys as bytes ----------

  /** The user key, then the tag in eight bytes. */
  function EncodeKey(k: IKey): Bytes { k.user + Fixed64(k.tag) }

  function UserPart(key: Bytes): Bytes { if |key| < 8 then [] else key[..|key| - 8] }

  function TagOf(key: Bytes): nat { if |key| < 8 then 0 else DecodeFixed(key[|key| - 8..]) }

  /** InternalKeyComparator::Compare: increasing user key, then decreasing tag. */
  predicate LessBytes(a: Bytes, b: Bytes) {
    var c := Compare(UserPart(a), UserPart(b));
    c < 0 || (c == 0 && TagOf(a) > TagOf(b))
  }

  lemma KeyBack(k: IKey)
    requires k.tag < TWO_64
    ensures UserPart(EncodeKey(k)) == k.user && TagOf(EncodeKey(k)) == k.tag
  {
    Fixed64RoundTrip(k.tag);
    var r := EncodeKey(k);
    assert r[..|r| - 8] == k.user && r[|r| - 8..] == Fixed64(k.tag);
  }

  /** Encoded keys compare as the keys do. */
  lemma LessIsLess(a: IKey, b: IKey)
    requires a.tag < TWO_64 && b.tag < TWO_64
    ensures LessBytes(EncodeKey(a), EncodeKey(b)) <==> Less(a.Ranked(), b.Ranked())
  {
    hide Rank, Compare;
    KeyBack(a);
    KeyBack(b);
    RankOrder(a.user, b.user);
  }

  // ---------- what the blocks hold ----------

  function ValueOf(op: Op): Bytes { if op.Put? then op.value else [] }

  function RecordOf(e: UserEntry): KV { KV(EncodeKey(e.Key()), ValueOf(e.op)) }

  /** The version that a key and a value stand for. */
  function VersionOf(kv: KV): Entry {
    var tag := TagOf(kv.key);
    Entry(Rank(UserPart(kv.key)), tag / 256, if tag % 256 == 1 then Put(kv.value) else Delete)
  }

  predicate Numbered(e: UserEntry) { e.seqno <= MAX_SEQUENCE_NUMBER }

  lemma RecordBack(e: UserEntry)
    requires Numbered(e)
    ensures e.Key().tag < TWO_64 && UserPart(RecordOf(e).key) == e.user && VersionOf(RecordOf(e)) == e.Plain()
  {
    hide Rank;
    KeyBack(e.Key());
  }

  function RecordsOf(es: seq<UserEntry>): (r: seq<KV>)
    ensures |r| == |es|
  {
    seq(|es|, i requires 0 <= i < |es| => RecordOf(es[i]))
  }

  /** Where a block is in the file. */
  datatype Handle = Handle(offset: nat, size: nat)

  function EncodeHandle(h: Handle): Bytes { Varint(h.offset) + Varint(h.size) }

  function DecodeHandle(b: Bytes): Option<Handle> {
    match ReadVarint64(b)
    case None => None
    case Some((offset, rest)) =>
      match ReadVarint64(rest)
      case None => None
      case Some((size, _)) => Some(Handle(offset, size))
  }

  lemma HandleBack(h: Handle)
    requires h.offset < TWO_64 && h.size < TWO_64
    ensures DecodeHandle(EncodeHandle(h)) == Some(h)
  {
    hide ReadVarint, Varint;
    Varint64RoundTrip(h.offset, Varint(h.size));
    Varint64RoundTrip(h.size, []);
    assert Varint(h.size) + [] == Varint(h.size);
  }

  function IndexRecords(keys: seq<IKey>, handles: seq<Handle>): (r: seq<KV>)
    requires |keys| == |handles|
    ensures |r| == |keys|
  {
    seq(|keys|, i requires 0 <= i < |keys| => KV(EncodeKey(keys[i]), EncodeHandle(handles[i])))
  }

  /** `p` is the first entry of the block that is not before the target. */
  ghost predicate FirstFrom(es: seq<KV>, target: Bytes, p: nat) {
    && p <= |es| && (forall i :: 0 <= i < p ==> LessBytes(es[i].key, target))
    && (p < |es| ==> !LessBytes(es[p].key, target))
  }

  /** The first entry of the block at or after the target. */
  method SeekBlock(block: Bytes, target: Bytes, ghost es: seq<KV>) returns (found: Option<KV>, ghost p: nat)
    requires Holds(block, es) && |block| < TWO_32 && BlockIter.Monotone(es, LessBytes, target)
    ensures match found
            case None => forall e :: e in es ==> LessBytes(e.key, target)
            case Some(e) => e in es && !LessBytes(e.key, target)
    ensures FirstFrom(es, target, p)
    ensures found == if p < |es| then Some(es[p]) else None
  {
    hide Layout, Encoded, LessBytes, BlockIter.IsBlock, BlockIter.OnEntry;
    ghost var shared, starts :| Layout(es, shared, starts) && block == Encoded(es, shared, starts);
    var it := BlockIter.NewIterator(block, LessBytes, es, shared, starts);
    it.Seek(target);
    it.Shows();
    p := it.at;
    found := if it.Valid() then Some(KV(it.key, it.data[it.valueStart..it.valueStart + it.valueLength])) else None;
  }

  // ---------- writing ----------

  /** Compression type and masked checksum. */
  function Trailer(crc: Checksum, block: Bytes): (r: Bytes)
    ensures |r| == 5
  {
    [0] + Fixed32(Mask(crc(block + [0])))
  }

  ghost predicate StoredAt(file: Bytes, h: Handle, es: seq<UserEntry>) {
    h.offset + h.size <= |file| && Holds(file[h.offset..h.offset + h.size], RecordsOf(es))
  }

  lemma StoredStays(file: Bytes, more: Bytes, h: Handle, es: seq<UserEntry>)
    requires StoredAt(file, h, es)
    ensures StoredAt(file + more, h, es)
  {
    assert (file + more)[h.offset..h.offset + h.size] == file[h.offset..h.offset + h.size];
  }

  /** The filter made for the offset lets the user key through. */
  ghost predicate Filtered(hash: Bloom.Hash, filters: seq<Bytes>, offset: nat, user: Bytes) {
    offset / FilterBlock.BASE < |filters| && Bloom.Matches(hash, user, filters[offset / FilterBlock.BASE])
  }

  function OffsetsOf(handles: seq<Handle>): (r: seq<nat>)
    ensures |r| == |handles|
  {
    seq(|handles|, i requires 0 <= i < |handles| => handles[i].offset)
  }

  /** The file holds the blocks at their handles, and the index block leads to them. */
  ghost predicate Laid(file: Bytes, index: Bytes, keys: seq<IKey>, blocks: seq<seq<UserEntry>>, handles: seq<Handle>) {
    && |keys| == |blocks| == |handles|
    && (forall i :: 0 <= i < |blocks| ==> StoredAt(file, handles[i], blocks[i]))
    && Holds(index, IndexRecords(keys, handles))
  }

  /** Besides, the filters know the keys of every block. */
  ghost predicate Written(file: Bytes, index: Bytes, hash: Bloom.Hash, keys: seq<IKey>, blocks: seq<seq<UserEntry>>,
                          handles: seq<Handle>, filters: seq<Bytes>)
  {
    && Laid(file, index, keys, blocks, handles)
    && forall i, e :: 0 <= i < |blocks| && e in blocks[i] ==> Filtered(hash, filters, handles[i].offset, e.user)
  }

  /** The data blocks so far, and what the filter builder was told. */
  ghost predicate WrittenUpTo(file: Bytes, blocks: seq<seq<UserEntry>>, handles: seq<Handle>,
                              told: set<FilterBlock.Added>)
  {
    && |handles| <= |blocks|
    && (forall i :: 0 <= i < |handles| ==> StoredAt(file, handles[i], blocks[i]))
    && TableBuilders.Increasing(OffsetsOf(handles), |file|)
    && forall i, e :: 0 <= i < |handles| && e in blocks[i] ==> FilterBlock.Added(handles[i].offset, e.user) in told
  }

  lemma OneMoreBlock(file: Bytes, blocks: seq<seq<UserEntry>>, handles: seq<Handle>, told: set<FilterBlock.Added>,
                     block: Bytes, trailer: Bytes, told': set<FilterBlock.Added>)
    requires WrittenUpTo(file, blocks, handles, told) && |handles| < |blocks| && |trailer| == 5 && told <= told'
    requires Holds(block, RecordsOf(blocks[|handles|]))
    requires forall e :: e in blocks[|handles|] ==> FilterBlock.Added(|file|, e.user) in told'
    ensures WrittenUpTo(file + block + trailer, blocks, handles + [Handle(|file|, |block|)], told')
  {
    hide Holds;
    var more := handles + [Handle(|file|, |block|)];
    forall i | 0 <= i < |more| ensures StoredAt(file + block + trailer, more[i], blocks[i]) {
      if i < |handles| {
        StoredStays(file, block + trailer, handles[i], blocks[i]);
        assert file + (block + trailer) == file + block + trailer;
      } else {
        assert (file + block + trailer)[|file|..|file| + |block|] == block;
      }
    }
    forall i, e | 0 <= i < |more| && e in blocks[i] ensures FilterBlock.Added(more[i].offset, e.user) in told' {
      if i < |handles| { assert FilterBlock.Added(handles[i].offset, e.user) in told; }
    }
    assert forall i :: 0 <= i < |handles| ==> OffsetsOf(more)[i] == OffsetsOf(handles)[i];
  }

  /** The filter block is told the user keys of the block at this offset. */
  method AddKeys(builder: FilterBlock.FilterBlockBuilder, offset: nat, es: seq<UserEntry>)
    requires builder.Valid() && builder.current <= offset
    modifies builder
    ensures builder.Valid() && builder.current == offset && old(builder.added) <= builder.added
    ensures forall e :: e in es ==> FilterBlock.Added(offset, e.user) in builder.added
  {
    builder.StartBlock(offset);
    for k := 0 to |es|
      invariant builder.Valid() && builder.current == offset && old(builder.added) <= builder.added
      invariant forall j :: 0 <= j < k ==> FilterBlock.Added(offset, es[j].user) in builder.added
    {
      builder.AddKey(es[k].user);
    }
  }

  /** Writes the data blocks with their trailers, then the index block, one entry to a restart, and the filter block. */
  method WriteTable(t: TableBuilders.TableBuilder, interval: nat, crc: Checksum, hash: Bloom.Hash, bitsPerKey: nat)
    returns (file: Bytes, index: Bytes, filter: Bytes, handles: seq<Handle>, ghost filters: seq<Bytes>)
    requires t.Valid() && t.closed && t.dataBlock == [] && |t.keys| == |t.blocks| && interval >= 1
    ensures Laid(file, index, t.keys, t.blocks, handles)
    ensures Written(file, index, hash, t.keys, t.blocks, handles, filters) && filter == FilterBlock.Contents(filters)
    ensures TableBuilders.Filed(t.added, t.blocks, [], OffsetsOf(handles), |file|, t.keys)
  {
    hide Holds, TableBuilders.Filed, TableBuilders.Increasing, Bloom.Matches, FilterBlock.Contents,
         FilterBlock.FilterBlockBuilder.Valid, StoredAt, RecordsOf, IndexRecords;
    var builder := new FilterBlock.FilterBlockBuilder(hash, bitsPerKey);
    handles := [];
    file := [];
    NothingWritten(t.blocks);
    for i := 0 to |t.blocks|
      invariant fresh(builder) && builder.Valid() && builder.hash == hash && builder.current <= |file|
      invariant |handles| == i && WrittenUpTo(file, t.blocks, handles, builder.added)
    {
      var es := t.blocks[i];
      ghost var told := builder.added;
      AddKeys(builder, |file|, es);
      var block := BuildBlock(RecordsOf(es), interval);
      OneMoreBlock(file, t.blocks, handles, told, block, Trailer(crc, block), builder.added);
      handles := handles + [Handle(|file|, |block|)];
      file := file + block + Trailer(crc, block);
    }
    index := BuildBlock(IndexRecords(t.keys, handles), 1);
    filter := builder.Finish();
    filters := builder.filters;
    Refiled(t.added, t.blocks, t.offsets, t.offset, t.keys, OffsetsOf(handles), |file|);
  }

  lemma NothingWritten(blocks: seq<seq<UserEntry>>)
    ensures WrittenUpTo([], blocks, [], {})
  {
  }

  /** Where the blocks are does not matter for the index keys. */
  lemma Refiled(added: seq<UserEntry>, blocks: seq<seq<UserEntry>>, offsets: seq<nat>, limit: nat, keys: seq<IKey>,
                offsets': seq<nat>, limit': nat)
    requires TableBuilders.Filed(added, blocks, [], offsets, limit, keys)
    requires |offsets'| == |blocks| && TableBuilders.Increasing(offsets', limit')
    ensures TableBuilders.Filed(added, blocks, [], offsets', limit', keys)
  {
    hide TableBuilders.KeyFits, Sorted, Plain;
  }

  // ---------- reading ----------

  /** What the finished builder promises of the index, at the places the blocks were written to. */
  ghost predicate Leads(added: seq<UserEntry>, keys: seq<IKey>, blocks: seq<seq<UserEntry>>, offsets: seq<nat>) {
    && |keys| == |blocks| == |offsets|
    && var index, blockOf := TableBuilders.IndexOf(keys, offsets), TableBuilders.BlockOf(offsets, blocks);
    && All(index, blockOf) == Plain(added) && Separates(index, blockOf) && Tight(index, blockOf)
    && IndexIncreasing(index)
    && (forall i :: 0 <= i < |blocks| ==> blockOf(offsets[i]) == Plain(blocks[i]) && Sorted(Plain(blocks[i])))
    && (forall i :: 0 <= i < |keys| ==> keys[i].tag < TWO_64 && blocks[i] != [])
    && (forall i, e :: 0 <= i < |blocks| && e in blocks[i] ==> Numbered(e))
  }

  lemma FiledLeads(added: seq<UserEntry>, keys: seq<IKey>, blocks: seq<seq<UserEntry>>, offsets: seq<nat>, limit: nat)
    requires TableBuilders.Filed(added, blocks, [], offsets, limit, keys) && |keys| == |blocks|
    requires forall e :: e in added ==> Numbered(e)
    ensures Leads(added, keys, blocks, offsets)
  {
    hide Sorted, Plain, All, Separates, Tight, IndexIncreasing, TableBuilders.KeyFits, TableBuilders.Increasing,
         TableBuilders.BlockAt;
    TableBuilders.Finished(added, keys, blocks, offsets, limit);
    var index, blockOf := TableBuilders.IndexOf(keys, offsets), TableBuilders.BlockOf(offsets, blocks);
    assert Concat(blocks) + [] == Concat(blocks);
    forall i | 0 <= i < |blocks| ensures blockOf(offsets[i]) == Plain(blocks[i]) && Sorted(Plain(blocks[i])) {
      TableBuilders.BlockAtOffset(offsets, blocks, limit, i);
      SortedAll(index, blockOf);
      BlockSorted(index, blockOf, i);
      assert index[i].handle == offsets[i];
    }
    forall i, e | 0 <= i < |blocks| && e in blocks[i] ensures Numbered(e) {
      InConcat(blocks, i, e);
    }
    forall i | 0 <= i < |keys| ensures keys[i].tag < TWO_64 {
      assert TableBuilders.KeyFits(keys, blocks, [], i);
      KeyTag(keys, blocks, i);
    }
  }

  lemma {:induction false} InConcat<T>(parts: seq<seq<T>>, i: nat, e: T)
    requires i < |parts| && e in parts[i]
    ensures e in Concat(parts)
  {
    if i < |parts| - 1 {
      InConcat(parts[..|parts| - 1], i, e);
    }
  }

  lemma KeyTag(keys: seq<IKey>, blocks: seq<seq<UserEntry>>, i: nat)
    requires i < |keys| <= |blocks| && TableBuilders.KeyFits(keys, blocks, [], i)
    requires forall e :: e in blocks[i] ==> Numbered(e)
    ensures keys[i].tag < TWO_64
  {
    var last := blocks[i][|blocks[i]| - 1];
    assert last in blocks[i] && Numbered(last);
  }

  lemma IndexSeekIs(index: seq<IndexEntry>, target: InternalKey, p: nat)
    requires p <= |index| && forall i :: 0 <= i < p ==> Less(index[i].key, target)
    requires p < |index| ==> !Less(index[p].key, target)
    ensures IndexSeek(index, target) == p
  {
    IndexSeekStops(index, target);
  }

  /** Encoded keys that are before an encoded target come first. */
  lemma KeysMonotone(keys: seq<IKey>, es: seq<KV>, target: IKey)
    requires |es| == |keys| && forall i :: 0 <= i < |keys| ==> es[i].key == EncodeKey(keys[i]) && keys[i].tag < TWO_64
    requires target.tag < TWO_64
    requires forall i, j :: 0 <= i < j < |keys| ==> Less(keys[i].Ranked(), keys[j].Ranked())
    ensures BlockIter.Monotone(es, LessBytes, EncodeKey(target))
    ensures forall i :: 0 <= i < |es| ==>
              (LessBytes(es[i].key, EncodeKey(target)) <==> Less(keys[i].Ranked(), target.Ranked()))
  {
    hide LessBytes, EncodeKey, Rank;
    forall i | 0 <= i < |es|
      ensures LessBytes(es[i].key, EncodeKey(target)) <==> Less(keys[i].Ranked(), target.Ranked())
    {
      LessIsLess(keys[i], target);
    }
  }

  function KeysOf(es: seq<UserEntry>): (r: seq<IKey>)
    ensures |r| == |es|
  {
    seq(|es|, i requires 0 <= i < |es| => es[i].Key())
  }

  function Target(user: Bytes, snapshot: nat): IKey { IKey(user, Pack(snapshot, TYPE_FOR_SEEK)) }

  lemma IndexMonotone(added: seq<UserEntry>, keys: seq<IKey>, blocks: seq<seq<UserEntry>>, handles: seq<Handle>,
                      target: IKey)
    requires |handles| == |blocks| && Leads(added, keys, blocks, OffsetsOf(handles)) && target.tag < TWO_64
    ensures BlockIter.Monotone(IndexRecords(keys, handles), LessBytes, EncodeKey(target))
    ensures forall i :: 0 <= i < |keys| ==>
              (LessBytes(IndexRecords(keys, handles)[i].key, EncodeKey(target))
               <==> Less(keys[i].Ranked(), target.Ranked()))
  {
    hide LessBytes, EncodeKey, Rank, Less, All, Separates, Tight, TableBuilders.BlockAt, EncodeHandle;
    var index := TableBuilders.IndexOf(keys, OffsetsOf(handles));
    assert forall i :: 0 <= i < |keys| ==> index[i].key == keys[i].Ranked();
    KeysMonotone(keys, IndexRecords(keys, handles), target);
  }

  lemma IndexSought(added: seq<UserEntry>, keys: seq<IKey>, blocks: seq<seq<UserEntry>>, handles: seq<Handle>,
                    target: IKey, b: nat)
    requires |handles| == |blocks| && Leads(added, keys, blocks, OffsetsOf(handles)) && target.tag < TWO_64
    requires FirstFrom(IndexRecords(keys, handles), EncodeKey(target), b)
    ensures IndexSeek(TableBuilders.IndexOf(keys, OffsetsOf(handles)), target.Ranked()) == b
  {
    hide LessBytes, EncodeKey, Rank, Less, All, Separates, Tight, TableBuilders.BlockAt, EncodeHandle;
    IndexMonotone(added, keys, blocks, handles, target);
    IndexSeekIs(TableBuilders.IndexOf(keys, OffsetsOf(handles)), target.Ranked(), b);
  }

  lemma BlockMonotone(es: seq<UserEntry>, target: IKey)
    requires Sorted(Plain(es)) && target.tag < TWO_64 && forall e :: e in es ==> Numbered(e)
    ensures BlockIter.Monotone(RecordsOf(es), LessBytes, EncodeKey(target))
    ensures forall i :: 0 <= i < |es| ==>
              (LessBytes(RecordsOf(es)[i].key, EncodeKey(target)) <==> Less(Plain(es)[i].Ikey(), target.Ranked()))
  {
    hide LessBytes, EncodeKey, Rank, Less;
    var keys := KeysOf(es);
    forall i | 0 <= i < |es| ensures keys[i].tag < TWO_64 && Plain(es)[i].Ikey() == keys[i].Ranked() {
      assert es[i] in es;
    }
    KeysMonotone(keys, RecordsOf(es), target);
  }

  lemma BlockSought(es: seq<UserEntry>, target: IKey, p: nat)
    requires Sorted(Plain(es)) && target.tag < TWO_64 && forall e :: e in es ==> Numbered(e)
    requires FirstFrom(RecordsOf(es), EncodeKey(target), p)
    ensures SeekPos(Plain(es), target.Ranked()) == p
  {
    hide LessBytes, EncodeKey, Rank, Less, RecordsOf;
    BlockMonotone(es, target);
    SeekPosIs(Plain(es), target.Ranked(), p);
  }

  /** What was passed on holds a version of the key. */
  predicate Hits(passed: Option<KV>, user: Bytes) { passed.Some? && UserPart(passed.value.key) == user }

  /** The answer to a lookup, as the caller reads it off the key and value passed on. */
  ghost predicate IsAnswer(added: seq<UserEntry>, user: Bytes, snapshot: nat, passed: Option<KV>) {
    if Hits(passed, user) then IsNewest(Elems(Plain(added)), Rank(user), snapshot, VersionOf(passed.value))
    else NoneVisible(Elems(Plain(added)), Rank(user), snapshot)
  }

  /**
   Table::InternalGet on the bytes alone: the index block is searched, the filter block asked and
   one data block searched.
   */
  method InternalGet(file: Bytes, index: Bytes, filter: Option<Bytes>, hash: Bloom.Hash, user: Bytes, snapshot: nat,
                     ghost added: seq<UserEntry>, ghost keys: seq<IKey>, ghost blocks: seq<seq<UserEntry>>,
                     ghost handles: seq<Handle>, ghost filters: seq<Bytes>)
    returns (passed: Option<KV>)
    requires Written(file, index, hash, keys, blocks, handles, filters) && |file| < TWO_64 && |index| < TWO_32
    requires TableBuilders.Filed(added, blocks, [], OffsetsOf(handles), |file|, keys)
    requires forall i :: 0 <= i < |handles| ==> handles[i].size < TWO_32
    requires filter.Some? ==> filter.value == FilterBlock.Contents(filters) && |Concat(filters)| < TWO_32
    requires snapshot <= MAX_SEQUENCE_NUMBER && forall e :: e in added ==> Numbered(e)
    ensures IsAnswer(added, user, snapshot, passed)
  {
    hide TableBuilders.Filed, LessBytes, EncodeKey, Holds, Bloom.Matches, FilterBlock.Contents, Concat, IndexSeek,
         Leads, BlockIter.Monotone, EncodeHandle, DecodeHandle, IsAnswer, Rank, RecordOf;
    FiledLeads(added, keys, blocks, OffsetsOf(handles), |file|);
    ghost var k := Target(user, snapshot);
    var target := EncodeKey(Target(user, snapshot));
    IndexMonotone(added, keys, blocks, handles, k);
    passed := None;
    var entry, b := SeekBlock(index, target, IndexRecords(keys, handles));
    IndexSought(added, keys, blocks, handles, k, b);
    if entry.Some? {
      HandleBack(handles[b]);
      LeadsTo(added, keys, blocks, OffsetsOf(handles), b);
      BlockMonotone(blocks[b], k);
      var handle := DecodeHandle(entry.value.value).value;
      assert StoredAt(file, handle, blocks[b]);
      if filter.Some? {
        assert Filtered(hash, filters, handles[b].offset, blocks[b][0].user);
        var mayMatch := FilterBlock.AskFilter(hash, filter.value, handle.offset, user, filters);
        if !mayMatch {
          forall e | e in blocks[b] ensures e.user != user {
            assert Filtered(hash, filters, handles[b].offset, e.user);
          }
          NotInBlock(added, keys, blocks, OffsetsOf(handles), user, snapshot, b);
          return;
        }
      }
      ghost var p;
      passed, p := SeekBlock(file[handle.offset..handle.offset + handle.size], target, RecordsOf(blocks[b]));
      BlockSought(blocks[b], k, p);
      FoundInBlock(added, keys, blocks, OffsetsOf(handles), user, snapshot, b, p);
    } else {
      NoBlock(added, keys, blocks, OffsetsOf(handles), user, snapshot);
    }
  }

  lemma LeadsTo(added: seq<UserEntry>, keys: seq<IKey>, blocks: seq<seq<UserEntry>>, offsets: seq<nat>, b: nat)
    requires Leads(added, keys, blocks, offsets) && b < |blocks|
    ensures Sorted(Plain(blocks[b])) && blocks[b] != [] && forall e :: e in blocks[b] ==> Numbered(e)
  {
  }

  lemma NoBlock(added: seq<UserEntry>, keys: seq<IKey>, blocks: seq<seq<UserEntry>>, offsets: seq<nat>, user: Bytes,
                snapshot: nat)
    requires Leads(added, keys, blocks, offsets)
    requires IndexSeek(TableBuilders.IndexOf(keys, offsets), Target(user, snapshot).Ranked()) == |keys|
    ensures IsAnswer(added, user, snapshot, None)
  {
    hide Separates, Tight, All, IndexSeek, Elems, NoneVisible, IsNewest, Rank;
    OneBlockAnswers(TableBuilders.IndexOf(keys, offsets), TableBuilders.BlockOf(offsets, blocks), Rank(user), snapshot);
  }

  lemma NotInBlock(added: seq<UserEntry>, keys: seq<IKey>, blocks: seq<seq<UserEntry>>, offsets: seq<nat>, user: Bytes,
                   snapshot: nat, b: nat)
    requires Leads(added, keys, blocks, offsets) && b < |keys|
    requires IndexSeek(TableBuilders.IndexOf(keys, offsets), Target(user, snapshot).Ranked()) == b
    requires forall e :: e in blocks[b] ==> e.user != user
    ensures IsAnswer(added, user, snapshot, None)
  {
    hide Separates, Tight, All, IndexSeek, SeekPos, Elems, NoneVisible, IsNewest, Rank, Sorted;
    var index, blockOf := TableBuilders.IndexOf(keys, offsets), TableBuilders.BlockOf(offsets, blocks);
    assert index[b].handle == offsets[b] && blockOf(offsets[b]) == Plain(blocks[b]);
    OneBlockAnswers(index, blockOf, Rank(user), snapshot);
    var p := SeekPos(Plain(blocks[b]), LookupKey(Rank(user), snapshot));
    if p < |blocks[b]| {
      assert blocks[b][p] in blocks[b];
      RankOrder(blocks[b][p].user, user);
    }
  }

  lemma FoundInBlock(added: seq<UserEntry>, keys: seq<IKey>, blocks: seq<seq<UserEntry>>, offsets: seq<nat>,
                     user: Bytes, snapshot: nat, b: nat, p: nat)
    requires Leads(added, keys, blocks, offsets) && b < |keys| && p <= |blocks[b]|
    requires IndexSeek(TableBuilders.IndexOf(keys, offsets), Target(user, snapshot).Ranked()) == b
    requires SeekPos(Plain(blocks[b]), Target(user, snapshot).Ranked()) == p
    ensures IsAnswer(added, user, snapshot, if p < |blocks[b]| then Some(RecordsOf(blocks[b])[p]) else None)
  {
    hide Separates, Tight, All, IndexSeek, SeekPos, Elems, NoneVisible, IsNewest, Rank, Sorted, RecordOf, VersionOf;
    var index, blockOf := TableBuilders.IndexOf(keys, offsets), TableBuilders.BlockOf(offsets, blocks);
    assert index[b].handle == offsets[b] && blockOf(offsets[b]) == Plain(blocks[b]);
    OneBlockAnswers(index, blockOf, Rank(user), snapshot);
    if p < |blocks[b]| {
      var e := blocks[b][p];
      assert e in blocks[b] && Plain(blocks[b])[p] == e.Plain();
      RecordBack(e);
      RankOrder(e.user, user);
    }
  }

  /** A table built from any sorted entries answers every lookup from its bytes with the newest visible version. */
  method BuildAndGet(es: seq<UserEntry>, encodedSize: seq<UserEntry> -> nat, blockSize: nat, interval: nat,
                     crc: Checksum, hash: Bloom.Hash, bitsPerKey: nat, withFilter: bool, user: Bytes, snapshot: nat)
    returns (file: Bytes, index: Bytes, filter: Bytes, passed: Option<KV>)
    requires Sorted(Plain(es)) && interval >= 1 && snapshot <= MAX_SEQUENCE_NUMBER
    requires forall e :: e in es ==> Numbered(e)
    // lengths and offsets inside a block are 32 bits wide
    ensures |file| < TWO_32 && |index| < TWO_32 && |filter| < TWO_32 ==> IsAnswer(es, user, snapshot, passed)
  {
    hide Sorted, Plain, Less, TableBuilders.Filed, Written, FilterBlock.Contents, Concat, IsAnswer, Separates, Tight,
         All, IndexIncreasing;
    var t := new TableBuilders.TableBuilder(encodedSize, blockSize);
    for i := 0 to |es|
      invariant fresh(t) && t.Valid() && !t.closed && t.added == es[..i]
    {
      if i > 0 { NextInOrder(es, i); }
      t.Add(es[i]);
      assert es[..i + 1] == es[..i] + [es[i]];
    }
    assert es[..|es|] == es;
    t.Finish();
    var handles;
    ghost var filters;
    file, index, filter, handles, filters := WriteTable(t, interval, crc, hash, bitsPerKey);
    passed := None;
    if |file| < TWO_32 && |index| < TWO_32 && |filter| < TWO_32 {
      FilterBlock.ContentsLonger(filters);
      SizesInFile(file, index, hash, t.keys, t.blocks, handles, filters);
      passed := InternalGet(file, index, if withFilter then Some(filter) else None, hash, user, snapshot, es, t.keys,
                            t.blocks, handles, filters);
    }
  }

  lemma NextInOrder(es: seq<UserEntry>, i: nat)
    requires Sorted(Plain(es)) && 0 < i < |es|
    ensures Less(es[i - 1].Key().Ranked(), es[i].Key().Ranked())
  {
    assert Less(Plain(es)[i - 1].Ikey(), Plain(es)[i].Ikey());
  }

  lemma SizesInFile(file: Bytes, index: Bytes, hash: Bloom.Hash, keys: seq<IKey>, blocks: seq<seq<UserEntry>>,
                    handles: seq<Handle>, filters: seq<Bytes>)
    requires Written(file, index, hash, keys, blocks, handles, filters)
    ensures forall i :: 0 <= i < |handles| ==> handles[i].size <= |file|
  {
    forall i | 0 <= i < |handles| ensures handles[i].size <= |file| {
      assert StoredAt(file, handles[i], blocks[i]);
    }
  }
}
