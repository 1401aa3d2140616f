/**
 Tables: separators, the index built one block late, and lookup in a single block
 (util/comparator.cc, db/dbformat.cc, table/table_builder.cc, table/table.cc).
 A block is the list of its entries; their bytes are the concern of other modules.
 */
module Table {
  import opened Wrappers
  import opened Keys
  import opened Mvcc
  import opened Cursors
  import opened TwoLevel
  import opened Versions

  // ---------- separators on byte strings ----------

  /** Where two strings first differ decides their order. */
  lemma {:induction false} DifferAt(a: Bytes, b: Bytes, i: nat)
    requires i <= |a| && i <= |b| && a[..i] == b[..i]
    requires if i == |a| then i < |b| else i < |b| && a[i] < b[i]
    ensures Compare(a, b) < 0
  {
    if i > 0 {
      assert a[0] == a[..i][0] == b[..i][0] == b[0];
      assert a[1..][..i - 1] == a[..i][1..] && b[1..][..i - 1] == b[..i][1..];
      DifferAt(a[1..], b[1..], i - 1);
    }
  }

  /**
   The first byte in which the strings differ, increased, if that stays below the
   limit's; otherwise nothing shorter.
   */
  function ShortestSeparator(start: Bytes, limit: Bytes): Bytes {
    var d := CommonPrefix(start, limit);
    if d < |start| && d < |limit| && start[d] < 0xff && start[d] + 1 < limit[d] then start[..d] + [start[d] + 1]
    else start
  }

  /** A separator lies between the two strings, the left end included. */
  lemma SeparatorSeparates(start: Bytes, limit: Bytes)
    ensures var r := ShortestSeparator(start, limit);
            |r| <= |start| && (r == start || (Compare(start, r) < 0 && Compare(r, limit) < 0))
  {
    var r, d := ShortestSeparator(start, limit), CommonPrefix(start, limit);
    if r != start {
      assert r[..d] == start[..d];
      DifferAt(start, r, d);
      DifferAt(r, limit, d);
    }
  }

  /** Everything up to the first byte that can be increased, with that byte increased. */
  function ShortSuccessor(key: Bytes): Bytes {
    if key == [] then [] else if key[0] != 0xff then [key[0] + 1] else [key[0]] + ShortSuccessor(key[1..])
  }

  lemma {:induction false} SuccessorFollows(key: Bytes)
    ensures var r := ShortSuccessor(key);
            |r| <= |key| && (r == key || Compare(key, r) < 0)
            && (r == key <==> forall i :: 0 <= i < |key| ==> key[i] == 0xff)
  {
    if key != [] {
      SuccessorFollows(key[1..]);
      assert key == [key[0]] + key[1..];
    }
  }

  lemma {:induction false} SuccessorAt(key: Bytes, i: nat)
    requires i <= |key| && forall j :: 0 <= j < i ==> key[j] == 0xff
    ensures i == |key| ==> ShortSuccessor(key) == key
    ensures i < |key| && key[i] != 0xff ==> ShortSuccessor(key) == key[..i] + [key[i] + 1]
  {
    if i > 0 {
      SuccessorAt(key[1..], i - 1);
      assert key == [key[0]] + key[1..] && key[..i] == [key[0]] + key[1..][..i - 1];
    }
  }

  method FindShortestSeparator(start: Bytes, limit: Bytes) returns (r: Bytes)
    ensures r == ShortestSeparator(start, limit)
  {
    var minLength := if |start| < |limit| then |start| else |limit|;
    var diff := 0;
    while diff < minLength && start[diff] == limit[diff]
      invariant 0 <= diff <= minLength && start[..diff] == limit[..diff]
    {
      diff := diff + 1;
    }
    CommonPrefixIs(start, limit, diff);
    r := start;
    if diff >= minLength {
      // one is a prefix of the other
    } else {
      var byte := start[diff];
      if byte < 0xff && byte + 1 < limit[diff] {
        r := start[..diff] + [byte + 1];
      }
    }
  }

  method FindShortSuccessor(key: Bytes) returns (r: Bytes)
    ensures r == ShortSuccessor(key)
  {
    var i := 0;
    while i < |key|
      invariant 0 <= i <= |key| && forall j :: 0 <= j < i ==> key[j] == 0xff
    {
      SuccessorAt(key, i);
      if key[i] != 0xff {
        return key[..i] + [key[i] + 1];
      }
      i := i + 1;
    }
    SuccessorAt(key, i);
    r := key;
  }

  // ---------- separators on internal keys ----------

  /** An internal key with its user key as bytes. */
  datatype IKey = IKey(user: Bytes, tag: nat) {
    function Ranked(): InternalKey { InternalKey(Rank(user), tag) }
  }

  datatype UserEntry = UserEntry(user: Bytes, seqno: nat, op: Op) {
    function Key(): IKey { IKey(user, Pack(seqno, TypeTag(op))) }
    function Plain(): Entry { Entry(Rank(user), seqno, op) }
  }

  /** The greatest tag: it sorts before every real version of its user key. */
  const EARLIEST_TAG: nat := Pack(MAX_SEQUENCE_NUMBER, TYPE_FOR_SEEK)

  /** The key itself, or one with a user key strictly after it and, given a limit, strictly before that. */
  ghost predicate Shortened(key: IKey, limit: Option<IKey>, r: IKey) {
    || r == key
    || (Rank(key.user) < Rank(r.user) && (limit.Some? ==> Rank(r.user) < Rank(limit.value.user))
        && r.tag == EARLIEST_TAG)
  }

  method FindShortestInternalSeparator(start: IKey, limit: IKey) returns (r: IKey)
    ensures Shortened(start, Some(limit), r)
    ensures r == var tmp := ShortestSeparator(start.user, limit.user);
                 if |tmp| < |start.user| && Compare(start.user, tmp) < 0 then IKey(tmp, EARLIEST_TAG) else start
  {
    var tmp := FindShortestSeparator(start.user, limit.user);
    SeparatorSeparates(start.user, limit.user);
    RankOrder(start.user, tmp);
    RankOrder(tmp, limit.user);
    r := start;
    if |tmp| < |start.user| && Compare(start.user, tmp) < 0 {
      r := IKey(tmp, EARLIEST_TAG);
    }
  }

  method FindShortInternalSuccessor(key: IKey) returns (r: IKey)
    ensures Shortened(key, None, r)
    ensures r == var tmp := ShortSuccessor(key.user);
                 if |tmp| < |key.user| && Compare(key.user, tmp) < 0 then IKey(tmp, EARLIEST_TAG) else key
  {
    var tmp := FindShortSuccessor(key.user);
    SuccessorFollows(key.user);
    RankOrder(key.user, tmp);
    r := key;
    if |tmp| < |key.user| && Compare(key.user, tmp) < 0 {
      r := IKey(tmp, EARLIEST_TAG);
    }
  }

  // ---------- what a table's index promises ----------

  function Plain(es: seq<UserEntry>): (r: seq<Entry>)
    ensures |r| == |es|
  {
    seq(|es|, i requires 0 <= i < |es| => es[i].Plain())
  }

  /**
   Each index key is the last key of its block, or has a user key strictly between that and
   everything after the block.
   */
  ghost predicate Tight(index: seq<IndexEntry>, blockOf: nat -> seq<Entry>) {
    forall b :: 0 <= b < |index| ==> TightAt(index, blockOf, b)
  }

  ghost predicate TightAt(index: seq<IndexEntry>, blockOf: nat -> seq<Entry>, b: nat)
    requires b < |index|
  {
    var es := blockOf(index[b].handle);
    && es != []
    && (|| index[b].key == es[|es| - 1].Ikey()
        || (es[|es| - 1].key < index[b].key.user
            && forall c, e: Entry :: b < c < |index| && e in blockOf(index[c].handle) ==> index[b].key.user < e.key))
  }

  ghost predicate IndexIncreasing(index: seq<IndexEntry>) {
    forall b, c :: 0 <= b < c < |index| ==> Less(index[b].key, index[c].key)
  }

  /** What the seek in one block finds decides the lookup in the whole table. */
  lemma OneBlockAnswers(index: seq<IndexEntry>, blockOf: nat -> seq<Entry>, user: UserKey, snapshot: nat)
    requires Separates(index, blockOf) && Tight(index, blockOf)
    ensures var k, all := LookupKey(user, snapshot), All(index, blockOf);
            var b := IndexSeek(index, k);
            if b < |index| then
              var es := blockOf(index[b].handle);
              var p := SeekPos(es, k);
              if p < |es| && es[p].key == user then es[p] in es && IsNewest(Elems(all), user, snapshot, es[p])
              else NoneVisible(Elems(all), user, snapshot)
            else NoneVisible(Elems(all), user, snapshot)
  {
    hide TwoLevel.All, Separates, Tight, Sorted, SeekPos, IndexSeek, Start, Flat, IsNewest, NoneVisible, Elems,
         LookupKey;
    var k, all := LookupKey(user, snapshot), All(index, blockOf);
    var b, q := IndexSeek(index, k), SeekPos(all, k);
    SortedAll(index, blockOf);
    SeekLands(index, blockOf, k);
    IndexSeekStops(index, k);
    SeekAnswers(all, user, snapshot);
    if b < |index| {
      var es, s := blockOf(index[b].handle), Start(index, blockOf, b);
      FlatAt(index, blockOf, b);
      BlockSorted(index, blockOf, b);
      SeekPosSplits(es, k);
      var p := SeekPos(es, k);
      if p < |es| {
        assert all[s + p] == es[p];
      } else if q < |all| {
        NextBlockIsAnother(index, blockOf, user, snapshot, b, q);
      }
    }
  }

  lemma SortedAll(index: seq<IndexEntry>, blockOf: nat -> seq<Entry>)
    requires Separates(index, blockOf)
    ensures Sorted(All(index, blockOf))
  {
  }

  /** In one sorted list the seek position answers the lookup. */
  lemma SeekAnswers(es: seq<Entry>, user: UserKey, snapshot: nat)
    requires Sorted(es)
    ensures var p := SeekPos(es, LookupKey(user, snapshot));
            if p < |es| && es[p].key == user then IsNewest(Elems(es), user, snapshot, es[p])
            else NoneVisible(Elems(es), user, snapshot)
  {
    var k := LookupKey(user, snapshot);
    var p := SeekPos(es, k);
    SeekPosSplits(es, k);
    forall f | f in es && f.key == user && f.seqno <= snapshot
      ensures p < |es| && es[p].key == user && f.seqno <= es[p].seqno
    {
      var j :| 0 <= j < |es| && es[j] == f;
      LookupKeyBound(f, user, snapshot);
      assert j >= p;
      LookupKeyBound(es[p], user, snapshot);
      if j > p { assert Less(es[p].Ikey(), es[j].Ikey()); }
    }
    if p < |es| { LookupKeyBound(es[p], user, snapshot); }
  }

  /** Past the end of the sought block there is no version of the user key: the index key saw to that. */
  lemma NextBlockIsAnother(index: seq<IndexEntry>, blockOf: nat -> seq<Entry>, user: UserKey, snapshot: nat, b: nat,
                           q: nat)
    requires Separates(index, blockOf) && Tight(index, blockOf) && b < |index|
    requires !Less(index[b].key, LookupKey(user, snapshot))
    requires var es := blockOf(index[b].handle); SeekPos(es, LookupKey(user, snapshot)) == |es| && Sorted(es)
    requires Start(index, blockOf, b + 1) <= q < |All(index, blockOf)|
    ensures All(index, blockOf)[q].key != user
  {
    var es, k := blockOf(index[b].handle), LookupKey(user, snapshot);
    SeekPosSplits(es, k);
    assert TightAt(index, blockOf, b);
    assert es[|es| - 1] in es && Less(es[|es| - 1].Ikey(), k);
    var c := BlockHolding(index, blockOf, |index|, q);
    if c <= b { FlatPrefix(index, blockOf, c + 1, b + 1); }
    var e := All(index, blockOf)[q];
    assert e in blockOf(index[c].handle) && b < c;
    assert index[b].key.user < e.key;
  }
}
