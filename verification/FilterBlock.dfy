/**
 The filter block (table/filter_block.cc): one filter for every 2 KB of file offsets, and
 lookup by the offset of a data block. The filters are bloom filters over any hash function.
 */
module FilterBlock {
  import opened Wrappers
  import opened Keys
  import opened Coding
  import Bloom

  const BASE_LG: nat := 11
  const BASE: nat := 2048

  /** Where filter `i` starts; for the number of filters, where the last one ends. */
  function Offset(filters: seq<Bytes>, i: nat): nat
    requires i <= |filters|
  {
    |Concat(filters[..i])|
  }

  lemma {:induction false} ConcatAt(filters: seq<Bytes>, i: nat)
    requires i < |filters|
    ensures Offset(filters, i) <= Offset(filters, i + 1) <= |Concat(filters)|
    ensures Concat(filters)[Offset(filters, i)..Offset(filters, i + 1)] == filters[i]
  {
    var n := |filters| - 1;
    if i == n {
      assert filters[..i + 1] == filters;
    } else {
      ConcatAt(filters[..n], i);
      assert filters[..n][..i] == filters[..i] && filters[..n][..i + 1] == filters[..i + 1];
    }
  }

  function Offsets(filters: seq<Bytes>): (r: seq<nat>)
    ensures |r| == |filters|
  {
    seq(|filters|, i requires 0 <= i < |filters| => Offset(filters, i))
  }

  /** The whole block: filters, their offsets, where the offsets begin, and the slot size. */
  function Contents(filters: seq<Bytes>): Bytes {
    Concat(filters) + Words(Offsets(filters)) + Fixed32(|Concat(filters)|) + [BASE_LG]
  }

  datatype Added = Added(offset: nat, key: Bytes)

  class FilterBlockBuilder {
    const hash: Bloom.Hash
    const bitsPerKey: nat
    /** Keys of the slot being filled, flattened, and where each begins. */
    var keys: Bytes
    var start: seq<nat>
    var result: Bytes
    var filterOffsets: seq<nat>
    ghost var pending: seq<Bytes>
    ghost var filters: seq<Bytes>
    /** The offset of the data block being built, and all keys with their block's offset. */
    ghost var current: nat
    ghost var added: set<Added>

    ghost predicate Valid()
      reads this
    {
      && keys == Concat(pending) && start == Offsets(pending)
      && result == Concat(filters) && filterOffsets == Offsets(filters)
      && |filters| == current / BASE
      && (forall a :: a in added ==> Covered(hash, filters, pending, a))
    }

    constructor (hash: Bloom.Hash, bitsPerKey: nat)
      ensures Valid() && current == 0 && added == {} && this.hash == hash
    {
      this.hash, this.bitsPerKey := hash, bitsPerKey;
      keys, start, result, filterOffsets := [], [], [], [];
      pending, filters, current, added := [], [], 0, {};
    }

    /** The keys cut out of the flattened ones again. */
    method TmpKeys() returns (tmp: seq<Bytes>)
      requires keys == Concat(pending) && start == Offsets(pending)
      ensures tmp == pending
    {
      var ends := start + [|keys|];
      tmp := [];
      var i := 0;
      while i < |start|
        invariant 0 <= i <= |start| && tmp == pending[..i]
      {
        ConcatAt(pending, i);
        assert i + 1 == |pending| ==> pending[..i + 1] == pending;
        tmp := tmp + [keys[ends[i]..ends[i + 1]]];
        i := i + 1;
      }
      assert pending[..i] == pending;
    }

    method GenerateFilter()
      requires keys == Concat(pending) && start == Offsets(pending)
      requires result == Concat(filters) && filterOffsets == Offsets(filters)
      requires forall a :: a in added ==> Covered(hash, filters, pending, a)
      modifies this
      ensures keys == Concat(pending) && start == Offsets(pending) && pending == []
      ensures result == Concat(filters) && filterOffsets == Offsets(filters) && |filters| == |old(filters)| + 1
      ensures forall a :: a in added ==> Covered(hash, filters, pending, a)
      ensures current == old(current) && added == old(added)
    {
      hide Bloom.Matches, Concat, Offsets;
      var filter: Bytes := [];
      EmptyOffsets(pending, start);
      NoFilterYet();
      filterOffsets := filterOffsets + [|result|];
      if |start| > 0 {
        var tmp := TmpKeys();
        filter := Bloom.CreateFilter(hash, bitsPerKey, tmp);
        result := result + filter;
        keys, start := [], [];
      }
      MoreFilters(filters, filter);
      CoveredLater(hash, filters, pending, filter, added);
      filters := filters + [filter];
      pending := [];
    }

    method StartBlock(blockOffset: nat)
      requires Valid() && current <= blockOffset
      modifies this
      ensures Valid() && current == blockOffset && added == old(added)
    {
      var filterIndex := blockOffset / BASE;
      while filterIndex > |filterOffsets|
        invariant |filters| <= filterIndex && added == old(added)
        invariant keys == Concat(pending) && start == Offsets(pending) && result == Concat(filters)
        invariant filterOffsets == Offsets(filters)
        invariant forall a :: a in added ==> Covered(hash, filters, pending, a)
        decreases filterIndex - |filterOffsets|
      {
        GenerateFilter();
      }
      current := blockOffset;
    }

    method AddKey(key: Bytes)
      requires Valid()
      modifies this
      ensures Valid() && current == old(current) && added == old(added) + {Added(current, key)}
    {
      start := start + [|keys|];
      keys := keys + key;
      MoreFilters(pending, key);
      pending := pending + [key];
      added := added + {Added(current, key)};
      assert pending[|pending| - 1] == key;
    }

    /** A reader of the finished block finds every key possible at its own data block's offset. */
    method Finish() returns (block: Bytes)
      requires Valid()
      modifies this
      ensures added == old(added) && block == Contents(filters)
      ensures forall a :: a in added ==> a.offset / BASE < |filters|
                                         && Bloom.Matches(hash, a.key, filters[a.offset / BASE])
    {
      hide Bloom.Matches, Concat, Words, Offsets;
      if |start| > 0 {
        GenerateFilter();
      }
      SamePending(pending, start);
      var arrayOffset := |result|;
      var i := 0;
      ghost var before := result;
      NoWords(filterOffsets);
      while i < |filterOffsets|
        invariant 0 <= i <= |filterOffsets| && result == before + Words(filterOffsets[..i])
        invariant filterOffsets == Offsets(filters) && pending == [] && added == old(added)
        invariant before == Concat(filters) && forall a :: a in added ==> Covered(hash, filters, pending, a)
      {
        WordsStep(filterOffsets, i);
        assert before + Words(filterOffsets[..i]) + Fixed32(filterOffsets[i]) ==
          before + (Words(filterOffsets[..i]) + Fixed32(filterOffsets[i]));
        result := result + Fixed32(filterOffsets[i]);
        i := i + 1;
      }
      assert filterOffsets[..i] == filterOffsets;
      result := result + Fixed32(arrayOffset);
      result := result + [BASE_LG];
      block := result;
    }
  }

  lemma EmptyOffsets(pending: seq<Bytes>, start: seq<nat>)
    requires start == Offsets(pending)
    ensures |start| == |pending|
  {
  }

  lemma NoFilterYet()
    ensures Concat<Byte>([]) == [] && Offsets([]) == []
  {
  }

  lemma SamePending(pending: seq<Bytes>, start: seq<nat>)
    requires start == Offsets(pending) && |start| == 0
    ensures pending == []
  {
  }

  /** The key is in the filter of its offset, or will be once that filter is made. */
  ghost predicate Covered(hash: Bloom.Hash, filters: seq<Bytes>, pending: seq<Bytes>, a: Added) {
    var slot := a.offset / BASE;
    if slot < |filters| then Bloom.Matches(hash, a.key, filters[slot]) else slot == |filters| && a.key in pending
  }

  lemma CoveredLater(hash: Bloom.Hash, filters: seq<Bytes>, pending: seq<Bytes>, filter: Bytes, added: set<Added>)
    requires forall a :: a in added ==> Covered(hash, filters, pending, a)
    requires forall i :: 0 <= i < |pending| ==> Bloom.Matches(hash, pending[i], filter)
    ensures forall a :: a in added ==> Covered(hash, filters + [filter], [], a)
  {
    hide Bloom.Matches;
    forall a | a in added ensures Covered(hash, filters + [filter], [], a) {
      assert Covered(hash, filters, pending, a);
    }
  }

  lemma MoreFilters(filters: seq<Bytes>, filter: Bytes)
    ensures Concat(filters + [filter]) == Concat(filters) + filter
    ensures Offsets(filters + [filter]) == Offsets(filters) + [|Concat(filters)|]
  {
    var all := filters + [filter];
    assert all[..|filters|] == filters;
    forall i | 0 <= i < |filters| ensures all[..i] == filters[..i] {}
  }

  class FilterBlockReader {
    const hash: Bloom.Hash
    const contents: Bytes
    var arrayOffset: nat
    var num: nat
    var baseLg: nat

    constructor (hash: Bloom.Hash, contents: Bytes)
      ensures this.hash == hash && this.contents == contents
      ensures num > 0 ==> arrayOffset + 4 * num + 5 <= |contents|
      ensures |contents| >= 5 ==>
                var n := |contents|; var lastWord := DecodeFixed(contents[n - 5..n - 1]);
                baseLg == contents[n - 1]
                && (lastWord <= n - 5 ==> arrayOffset == lastWord && num == (n - 5 - lastWord) / 4)
    {
      this.hash, this.contents := hash, contents;
      arrayOffset, num, baseLg := 0, 0, 0;
      var n := |contents|;
      if n >= 5 {
        baseLg := contents[n - 1];
        var lastWord := DecodeFixed(contents[n - 5..n - 1]);
        if lastWord <= n - 5 {
          arrayOffset := lastWord;
          num := (n - 5 - lastWord) / 4;
        }
      }
    }

    /** Filter `index` decides; a slot that cannot be read counts as a possible match. */
    method KeyMayMatch(blockOffset: nat, key: Bytes) returns (r: bool)
      requires num > 0 ==> arrayOffset + 4 * num + 5 <= |contents|
      ensures Says(hash, contents, arrayOffset, num, ShiftRight(blockOffset, baseLg), key, r)
    {
      hide Bloom.Matches, WordOf;
      var index := ShiftRight(blockOffset, baseLg);
      if index < num {
        var start := WordOf(contents, arrayOffset, index);
        var limit := WordOf(contents, arrayOffset, index + 1);
        if start <= limit && limit <= arrayOffset {
          r := Bloom.KeyMayMatch(hash, key, contents[start..limit]);
          return;
        } else if start == limit {
          return false;
        }
      }
      r := true;
    }
  }

  function ShiftRight(x: nat, b: nat): nat { if b == 0 then x else ShiftRight(x / 2, b - 1) }

  lemma ShiftByBase(x: nat)
    ensures ShiftRight(x, BASE_LG) == x / BASE
  {
    hide ShiftRight;
    ShiftTwo(x, 11);
    ShiftTwo(x / 4, 9);
    ShiftTwo(x / 4 / 4, 7);
    ShiftTwo(x / 4 / 4 / 4, 5);
    ShiftTwo(x / 4 / 4 / 4 / 4, 3);
    ShiftOne(x / 4 / 4 / 4 / 4 / 4);
  }

  lemma ShiftTwo(x: nat, b: nat)
    requires b >= 2
    ensures ShiftRight(x, b) == ShiftRight(x / 4, b - 2)
  {
    assert ShiftRight(x, b) == ShiftRight(x / 2, b - 1) == ShiftRight(x / 2 / 2, b - 2);
  }

  lemma ShiftOne(x: nat)
    ensures ShiftRight(x, 1) == x / 2
  {
  }

  function WordOf(contents: Bytes, arrayOffset: nat, i: nat): nat {
    if arrayOffset + 4 * i + 4 <= |contents| then DecodeFixed(contents[arrayOffset + 4 * i..arrayOffset + 4 * i + 4])
    else 0
  }

  ghost predicate Says(hash: Bloom.Hash, contents: Bytes, arrayOffset: nat, num: nat, index: nat, key: Bytes, r: bool) {
    var start, limit := WordOf(contents, arrayOffset, index), WordOf(contents, arrayOffset, index + 1);
    if index < num && start <= limit <= arrayOffset <= |contents| then r
    <==> Bloom.Matches(hash, key, contents[start..limit])
    else r <==> !(index < num && start == limit)
  }

  // ---------- no false negatives ----------

  /** What the reader makes of a finished block. */
  lemma Parses(filters: seq<Bytes>, i: nat)
    requires |Concat(filters)| < TWO_32 && i < |filters|
    ensures var c := Contents(filters); var n, at := |c|, |Concat(filters)|;
            && n >= 5 && c[n - 1] == BASE_LG && DecodeFixed(c[n - 5..n - 1]) == at && at <= n - 5
            && (n - 5 - at) / 4 == |filters|
            && WordOf(c, at, i) == Offset(filters, i) && WordOf(c, at, i + 1) == Offset(filters, i + 1)
            && Offset(filters, i) <= Offset(filters, i + 1) <= at
            && c[Offset(filters, i)..Offset(filters, i + 1)] == filters[i]
  {
    hide Concat, Words, Offset, Fixed;
    var c, all, words := Contents(filters), Concat(filters), Words(Offsets(filters));
    var n, at := |c|, |all|;
    ConcatAt(filters, i);
    Fixed32RoundTrip(at);
    assert c[n - 5..n - 1] == Fixed32(at);
    assert c[Offset(filters, i)..Offset(filters, i + 1)] == all[Offset(filters, i)..Offset(filters, i + 1)];
    WordParses(filters, i);
    if i + 1 < |filters| {
      ConcatAt(filters, i + 1);
      WordParses(filters, i + 1);
    } else {
      assert filters[..i + 1] == filters;
      OffsetEnd(filters);
      assert c[at + 4 * (i + 1)..at + 4 * (i + 1) + 4] == Fixed32(at);
    }
  }

  lemma OffsetEnd(filters: seq<Bytes>)
    ensures Offset(filters, |filters|) == |Concat(filters)|
  {
    assert filters[..|filters|] == filters;
  }

  lemma WordParses(filters: seq<Bytes>, i: nat)
    requires |Concat(filters)| < TWO_32 && i < |filters| && Offset(filters, i) < TWO_32
    ensures WordOf(Contents(filters), |Concat(filters)|, i) == Offset(filters, i)
  {
    hide Concat, Words, Offset, Fixed;
    var c, at, words := Contents(filters), |Concat(filters)|, Words(Offsets(filters));
    WordAt(Offsets(filters), i);
    Fixed32RoundTrip(Offset(filters, i));
    assert c[at + 4 * i..at + 4 * i + 4] == words[4 * i..4 * i + 4];
  }

  /** Asking a finished block about a key: yes at least for the keys that the filter of the offset was made for. */
  method AskFilter(hash: Bloom.Hash, block: Bytes, offset: nat, key: Bytes, ghost filters: seq<Bytes>) returns (r: bool)
    requires block == Contents(filters) && |Concat(filters)| < TWO_32 && offset / BASE < |filters|
    ensures Bloom.Matches(hash, key, filters[offset / BASE]) ==> r
  {
    hide Bloom.Matches, WordOf, Concat, Offset, Contents;
    Parses(filters, offset / BASE);
    ShiftByBase(offset);
    var reader := new FilterBlockReader(hash, block);
    r := reader.KeyMayMatch(offset, key);
  }

  /** Any run of StartBlock and AddKey, finished, says yes to every key added, at the offset it was added under. */
  method NoFalseNegatives(hash: Bloom.Hash, bitsPerKey: nat, blocks: seq<(nat, seq<Bytes>)>, b: nat, i: nat)
    returns (block: Bytes, r: bool)
    requires forall j, k :: 0 <= j < k < |blocks| ==> blocks[j].0 <= blocks[k].0
    requires b < |blocks| && i < |blocks[b].1|
    // the block's offsets are 32 bits wide
    ensures |block| < TWO_32 ==> r
  {
    hide Bloom.Matches, Concat, Offset, Contents, Covered;
    var builder := new FilterBlockBuilder(hash, bitsPerKey);
    var j := 0;
    while j < |blocks|
      invariant 0 <= j <= |blocks| && fresh(builder) && builder.hash == hash && builder.Valid()
      invariant j < |blocks| ==> builder.current <= blocks[j].0
      invariant j > b ==> Added(blocks[b].0, blocks[b].1[i]) in builder.added
    {
      builder.StartBlock(blocks[j].0);
      var k := 0;
      while k < |blocks[j].1|
        invariant 0 <= k <= |blocks[j].1| && fresh(builder) && builder.hash == hash && builder.Valid()
        invariant builder.current == blocks[j].0
        invariant j > b || (j == b && k > i) ==> Added(blocks[b].0, blocks[b].1[i]) in builder.added
      {
        builder.AddKey(blocks[j].1[k]);
        k := k + 1;
      }
      j := j + 1;
    }
    block := builder.Finish();
    r := false;
    if |block| < TWO_32 {
      ContentsLonger(builder.filters);
      r := AskFilter(hash, block, blocks[b].0, blocks[b].1[i], builder.filters);
    }
  }

  lemma ContentsLonger(filters: seq<Bytes>)
    ensures |Concat(filters)| <= |Contents(filters)|
  {
  }
}
