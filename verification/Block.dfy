/**
 Prefix-compressed blocks (table/block_builder.cc, table/block.cc): the builder's bytes
 and the iterator that reads them back in both directions and by binary search.
 */
module Block {
  import opened Wrappers
  import opened Keys
  import opened Coding

  datatype KV = KV(key: Bytes, value: Bytes)

  /** `shared` bytes of the previous key are not repeated. */
  function EntryBytes(shared: nat, e: KV): Bytes
    requires shared <= |e.key|
  {
    Varint(shared) + (Varint(|e.key| - shared) + (Varint(|e.value|) + (e.key[shared..] + e.value)))
  }

  /** Every entry shares at most what it has in common with its predecessor, and the first nothing. */
  ghost predicate Shares(es: seq<KV>, shared: seq<nat>) {
    && |shared| == |es|
    && (forall i :: 0 <= i < |es| ==> shared[i] <= |es[i].key|)
    && (es != [] ==> shared[0] == 0)
    && (forall i, j {:trigger es[i], es[j]} :: 0 <= i < |es| && j == i + 1 && j < |es| ==>
          SharesWith(es[i].key, es[j].key, shared[j]))
  }

  predicate SharesWith(previous: Bytes, key: Bytes, n: nat) {
    n <= |previous| && n <= |key| && previous[..n] == key[..n]
  }

  function Data(es: seq<KV>, shared: seq<nat>, n: nat): Bytes
    requires n <= |es| == |shared| && forall i :: 0 <= i < |es| ==> shared[i] <= |es[i].key|
  {
    if n == 0 then [] else Data(es, shared, n - 1) + EntryBytes(shared[n - 1], es[n - 1])
  }

  /** Where entry `n` begins. */
  function Pos(es: seq<KV>, shared: seq<nat>, n: nat): nat
    requires n <= |es| == |shared| && forall i :: 0 <= i < |es| ==> shared[i] <= |es[i].key|
  {
    |Data(es, shared, n)|
  }

  /** The entries at which prefix compression restarts, the first one among them. */
  ghost predicate Restarts(es: seq<KV>, shared: seq<nat>, starts: seq<nat>) {
    && starts != [] && starts[0] == 0
    && (forall r, s :: 0 <= r < s < |starts| ==> starts[r] < starts[s])
    && (forall r :: 0 <= r < |starts| ==> starts[r] <= |es| && (starts[r] == |es| ==> es == []))
    && |shared| == |es| && (forall r :: 0 <= r < |starts| && starts[r] < |es| ==> shared[starts[r]] == 0)
  }

  ghost predicate Layout(es: seq<KV>, shared: seq<nat>, starts: seq<nat>) {
    Shares(es, shared) && Restarts(es, shared, starts)
  }

  function Points(es: seq<KV>, shared: seq<nat>, starts: seq<nat>): (r: seq<nat>)
    requires |es| == |shared| && (forall i :: 0 <= i < |es| ==> shared[i] <= |es[i].key|)
    requires forall r :: 0 <= r < |starts| ==> starts[r] <= |es|
    ensures |r| == |starts|
  {
    seq(|starts|, r requires 0 <= r < |starts| => Pos(es, shared, starts[r]))
  }

  /** The finished block: entries, restart points, and their number. */
  ghost function Encoded(es: seq<KV>, shared: seq<nat>, starts: seq<nat>): Bytes
    requires Layout(es, shared, starts)
  {
    Data(es, shared, |es|) + Words(Points(es, shared, starts)) + Fixed32(|starts|)
  }

  // ---------- offsets ----------

  lemma {:induction false} DataGrows(es: seq<KV>, shared: seq<nat>, m: nat, n: nat)
    requires Shares(es, shared) && m <= n <= |es|
    ensures Data(es, shared, m) <= Data(es, shared, n) && (m < n ==> Pos(es, shared, m) + 3 <= Pos(es, shared, n))
    decreases n - m
  {
    hide EntryBytes, Shares;
    SharesBound(es, shared);
    if m < n {
      DataGrows(es, shared, m, n - 1);
      EntryLength(shared[n - 1], es[n - 1]);
    }
  }

  lemma SharesBound(es: seq<KV>, shared: seq<nat>)
    requires Shares(es, shared)
    ensures |shared| == |es| && forall i :: 0 <= i < |es| ==> shared[i] <= |es[i].key|
  {
  }

  lemma EntryLength(shared: nat, e: KV)
    requires shared <= |e.key|
    ensures |EntryBytes(shared, e)| >= 3
  {
  }

  lemma {:induction false} DataPrefix(es: seq<KV>, shared: seq<nat>, e: KV, s: nat, n: nat)
    requires n <= |es| == |shared| && s <= |e.key| && forall i :: 0 <= i < |es| ==> shared[i] <= |es[i].key|
    ensures Data(es + [e], shared + [s], n) == Data(es, shared, n)
  {
    hide EntryBytes;
    if n > 0 {
      DataPrefix(es, shared, e, s, n - 1);
    }
  }

  // ---------- building ----------

  /** See how much sharing to do with the previous key. */
  method SharedLength(previous: Bytes, key: Bytes) returns (n: nat)
    ensures n == CommonPrefix(previous, key)
  {
    var minLength := if |previous| < |key| then |previous| else |key|;
    n := 0;
    while n < minLength && previous[n] == key[n]
      invariant 0 <= n <= minLength && previous[..n] == key[..n]
    {
      n := n + 1;
    }
    CommonPrefixIs(previous, key, n);
  }

  class BlockBuilder {
    const interval: nat
    var buffer: Bytes
    var restarts: seq<nat>
    var counter: nat
    var lastKey: Bytes
    var finished: bool
    ghost var entries: seq<KV>
    ghost var shared: seq<nat>
    ghost var starts: seq<nat>

    ghost predicate Valid()
      reads this
    {
      && interval >= 1 && Written(entries, shared, starts, buffer, restarts) && !finished && starts != []
      && lastKey == (if entries == [] then [] else entries[|entries| - 1].key)
      && counter <= interval && counter == |entries| - starts[|starts| - 1]
    }

    constructor (interval: nat)
      requires interval >= 1
      ensures Valid() && entries == [] && this.interval == interval
    {
      this.interval := interval;
      buffer, restarts, counter, lastKey, finished := [], [0], 0, [], false;
      entries, shared, starts := [], [], [0];
    }

    method Add(key: Bytes, value: Bytes)
      requires Valid()
      modifies this
      ensures Valid() && entries == old(entries) + [KV(key, value)]
      // all that is shared with the previous key is left out, except at every interval-th entry
      ensures var restart := old(counter) >= interval;
              && shared == old(shared) + [if restart then 0 else CommonPrefix(old(lastKey), key)]
              && starts == (if restart then old(starts) + [|old(entries)|] else old(starts))
              && counter == if restart then 1 else old(counter) + 1
    {
      hide Written, EntryBytes, CommonPrefix, Varint;
      var n := 0;
      var restart := counter >= interval;
      if !restart {
        n := SharedLength(lastKey, key);
      } else {
        restarts := restarts + [|buffer|];
        counter := 0;
      }
      WriteEntry(n, restart, key, value);
    }

    /** The entry itself, with the first `n` bytes of its key left out. */
    method WriteEntry(n: nat, restart: bool, key: Bytes, value: Bytes)
      requires n <= |key| && starts != [] && interval >= 1 && counter < interval && !finished
      requires lastKey == (if entries == [] then [] else entries[|entries| - 1].key) && SharesWith(lastKey, key, n)
      requires Written(entries, shared, starts, buffer,
                       if restart && restarts != [] then restarts[..|restarts| - 1] else restarts)
      requires restart ==> n == 0 && entries != [] && restarts != [] && restarts[|restarts| - 1] == |buffer|
                           && counter == 0
      requires !restart ==> counter == |entries| - starts[|starts| - 1]
      modifies this
      ensures Valid() && entries == old(entries) + [KV(key, value)] && shared == old(shared) + [n]
      ensures starts == (if restart then old(starts) + [|old(entries)|] else old(starts)) && counter == old(counter) + 1
    {
      hide Written, EntryBytes, Varint, SharesWith;
      SharedAndRest(lastKey, key, n);
      AddWritten(entries, shared, starts, buffer, if restart then restarts[..|restarts| - 1] else restarts,
                 KV(key, value), n, restart);
      assert restart ==> restarts[..|restarts| - 1] + [|buffer|] == restarts;
      EntryIs(n, KV(key, value));
      buffer := buffer + (Varint(n) + (Varint(|key| - n) + (Varint(|value|) + (key[n..] + value))));
      starts := if restart then starts + [|entries|] else starts;
      entries, shared := entries + [KV(key, value)], shared + [n];
      lastKey := lastKey[..n] + key[n..];
      counter := counter + 1;
    }

    method Finish() returns (block: Bytes)
      requires Valid()
      modifies this
      ensures Layout(entries, shared, starts) && entries == old(entries) && block == Encoded(entries, shared, starts)
    {
      hide Data, Points, Layout, Words;
      LayoutFacts(entries, shared, starts);
      var i := 0;
      ghost var before := buffer;
      NoWords(restarts);
      while i < |restarts|
        invariant 0 <= i <= |restarts| && buffer == before + Words(restarts[..i])
        invariant restarts == Points(old(entries), old(shared), old(starts))
        invariant entries == old(entries) && shared == old(shared) && starts == old(starts)
      {
        WordsStep(restarts, i);
        assert before + Words(restarts[..i]) + Fixed32(restarts[i]) ==
          before + (Words(restarts[..i]) + Fixed32(restarts[i]));
        buffer := buffer + Fixed32(restarts[i]);
        i := i + 1;
      }
      assert restarts[..i] == restarts;
      buffer := buffer + Fixed32(|restarts|);
      finished := true;
      block := buffer;
    }
  }

  /** The block was built from these entries. */
  ghost predicate Holds(block: Bytes, es: seq<KV>) {
    exists shared, starts :: Layout(es, shared, starts) && block == Encoded(es, shared, starts)
  }

  method BuildBlock(es: seq<KV>, interval: nat) returns (block: Bytes)
    requires interval >= 1
    ensures Holds(block, es)
  {
    hide Layout, Encoded;
    var builder := new BlockBuilder(interval);
    for i := 0 to |es|
      invariant fresh(builder) && builder.Valid() && builder.entries == es[..i]
    {
      builder.Add(es[i].key, es[i].value);
      assert es[..i + 1] == es[..i] + [es[i]];
    }
    assert es[..|es|] == es;
    block := builder.Finish();
    assert Layout(es, builder.shared, builder.starts) && block == Encoded(es, builder.shared, builder.starts);
  }

  lemma LayoutFacts(es: seq<KV>, shared: seq<nat>, starts: seq<nat>)
    requires Layout(es, shared, starts)
    ensures |shared| == |es| && (forall i :: 0 <= i < |es| ==> shared[i] <= |es[i].key|)
    ensures starts != [] && forall r :: 0 <= r < |starts| ==> starts[r] <= |es|
  {
  }

  /** The shared bytes and the rest make up the key. */
  lemma SharedAndRest(previous: Bytes, key: Bytes, n: nat)
    requires SharesWith(previous, key, n)
    ensures n <= |previous| && previous[..n] + key[n..] == key && (previous == [] ==> n == 0)
  {
  }

  lemma EntryIs(shared: nat, e: KV)
    requires shared <= |e.key|
    ensures EntryBytes(shared, e) ==
              Varint(shared) + (Varint(|e.key| - shared) + (Varint(|e.value|) + (e.key[shared..] + e.value)))
  {
  }

  /** What has been written so far. */
  ghost predicate Written(es: seq<KV>, shared: seq<nat>, starts: seq<nat>, buffer: Bytes, restarts: seq<nat>) {
    Layout(es, shared, starts) && buffer == Data(es, shared, |es|) && restarts == Points(es, shared, starts)
  }

  lemma AddWritten(es: seq<KV>, shared: seq<nat>, starts: seq<nat>, buffer: Bytes, restarts: seq<nat>, e: KV, n: nat,
                   restart: bool)
    requires Written(es, shared, starts, buffer, restarts) && n <= |e.key|
    requires if es == [] then n == 0 && !restart else SharesWith(es[|es| - 1].key, e.key, n) && (restart ==> n == 0)
    ensures Written(es + [e], shared + [n], if restart then starts + [|es|] else starts, buffer + EntryBytes(n, e),
                    if restart then restarts + [|buffer|] else restarts)
  {
    hide EntryBytes, SharesWith, Data, Points, Layout;
    LayoutFacts(es, shared, starts);
    AddEntry(es, shared, starts, e, n, restart);
    assert restarts + [] == restarts;
  }

  /** One more entry, sharing `n` bytes with the last one, or starting afresh at a restart point. */
  lemma AddEntry(es: seq<KV>, shared: seq<nat>, starts: seq<nat>, e: KV, n: nat, restart: bool)
    requires Layout(es, shared, starts) && n <= |e.key|
    requires if es == [] then n == 0 && !restart else SharesWith(es[|es| - 1].key, e.key, n) && (restart ==> n == 0)
    ensures var es', shared', starts' := es + [e], shared + [n], if restart then starts + [|es|] else starts;
            && Layout(es', shared', starts')
            && Data(es', shared', |es'|) == Data(es, shared, |es|) + EntryBytes(n, e)
            && Points(es', shared', starts') == Points(es, shared,
                                                       starts) + (if restart then [Pos(es, shared, |es|)] else [])
  {
    hide EntryBytes, SharesWith, Shares, Restarts, Data;
    LayoutFacts(es, shared, starts);
    var es', shared', starts' := es + [e], shared + [n], if restart then starts + [|es|] else starts;
    AddShares(es, shared, e, n);
    AddRestarts(es, shared, starts, e, n, restart);
    DataPrefix(es, shared, e, n, |es|);
    DataStep(es', shared', |es|);
    forall r | 0 <= r < |starts'|
      ensures starts'[r] <= |es| && Pos(es', shared', starts'[r]) == Pos(es, shared, starts'[r])
    {
      DataPrefix(es, shared, e, n, starts'[r]);
    }
  }

  lemma AddShares(es: seq<KV>, shared: seq<nat>, e: KV, n: nat)
    requires Shares(es, shared) && n <= |e.key|
    requires if es == [] then n == 0 else SharesWith(es[|es| - 1].key, e.key, n)
    ensures Shares(es + [e], shared + [n])
  {
    var es', shared' := es + [e], shared + [n];
    forall i, j | 0 <= i < |es'| && j == i + 1 && j < |es'| ensures SharesWith(es'[i].key, es'[j].key, shared'[j]) {
      if j < |es| { assert SharesWith(es[i].key, es[j].key, shared[j]); }
    }
  }

  lemma AddRestarts(es: seq<KV>, shared: seq<nat>, starts: seq<nat>, e: KV, n: nat, restart: bool)
    requires Restarts(es, shared, starts) && (restart ==> n == 0 && es != []) && (es == [] ==> n == 0)
    ensures Restarts(es + [e], shared + [n], if restart then starts + [|es|] else starts)
  {
  }

  // ---------- reading ----------

  lemma DataAt(es: seq<KV>, shared: seq<nat>, i: nat)
    requires Shares(es, shared) && i < |es|
    ensures |shared| == |es| && shared[i] <= |es[i].key|
    ensures Pos(es, shared, i) < Pos(es, shared, i + 1) <= Pos(es, shared, |es|)
    ensures Data(es, shared, |es|)[Pos(es, shared, i)..Pos(es, shared, i + 1)] == EntryBytes(shared[i], es[i])
  {
    hide EntryBytes, Shares, Data;
    SharesBound(es, shared);
    DataGrows(es, shared, i, i + 1);
    DataGrows(es, shared, i + 1, |es|);
    DataStep(es, shared, i);
    var all, before, upto := Data(es, shared, |es|), Data(es, shared, i), Data(es, shared, i + 1);
    assert all[|before|..|upto|] == upto[|before|..];
  }

  lemma DataStep(es: seq<KV>, shared: seq<nat>, i: nat)
    requires |es| == |shared| && (forall k :: 0 <= k < |es| ==> shared[k] <= |es[k].key|) && i < |es|
    ensures Data(es, shared, i + 1) == Data(es, shared, i) + EntryBytes(shared[i], es[i])
  {
  }

  /** The three lengths in front of an entry; the fast path is for one byte each. */
  method DecodeEntry(input: Bytes, ghost shared: nat, ghost e: KV, ghost rest: Bytes)
    returns (r: Option<(nat, nat, nat, nat)>)
    ensures r.Some? ==> r.value.3 + r.value.1 + r.value.2 <= |input|
    ensures shared <= |e.key| < TWO_32 && |e.value| < TWO_32 && input == EntryBytes(shared, e) + rest ==>
              && r == Some((shared, |e.key| - shared, |e.value|,
                            |EntryBytes(shared, e)| - (|e.key| - shared) - |e.value|))
              && input[r.value.3..][..|e.key| - shared] == e.key[shared..]
              && input[r.value.3 + |e.key| - shared..][..|e.value|] == e.value
  {
    hide EntryBytes, ReadVarint;
    ghost var expected := shared <= |e.key| < TWO_32 && |e.value| < TWO_32 && input == EntryBytes(shared, e) + rest;
    if expected { EntryReads(shared, e, rest); }
    if |input| < 3 { return None; }
    var a: nat, b: nat, c: nat, p: nat := input[0], input[1], input[2], 3;
    if a < 128 && b < 128 && c < 128 {
      OneByteEach(input);
    } else {
      var r0 := GetVarint(input, 5, TWO_32);
      if r0.None? { return None; }
      VarintShortens(input);
      var r1 := GetVarint(r0.value.1, 5, TWO_32);
      if r1.None? { return None; }
      VarintShortens(r0.value.1);
      var r2 := GetVarint(r1.value.1, 5, TWO_32);
      if r2.None? { return None; }
      VarintShortens(r1.value.1);
      a, b, c, p := r0.value.0, r1.value.0, r2.value.0, |input| - |r2.value.1|;
    }
    if |input| - p < b + c { return None; }
    r := Some((a, b, c, p));
  }

  /** Reading the three lengths off an entry, whichever way. */
  lemma EntryReads(shared: nat, e: KV, rest: Bytes)
    requires shared <= |e.key| < TWO_32 && |e.value| < TWO_32
    ensures var input, n, v := EntryBytes(shared, e) + rest, |e.key| - shared, |e.value|;
            var after0 := Varint(n) + (Varint(v) + (e.key[shared..] + e.value + rest));
            var after1 := Varint(v) + (e.key[shared..] + e.value + rest);
            var after2 := e.key[shared..] + e.value + rest;
            && ReadVarint32(input) == Some((shared, after0)) && ReadVarint32(after0) == Some((n, after1))
            && ReadVarint32(after1) == Some((v, after2))
            && |input| >= 3 && |after2| + (|EntryBytes(shared, e)| - n - v) == |input|
            && |EntryBytes(shared, e)| >= n + v
            && input[|input| - |after2|..] == after2
            && after2[..n] == e.key[shared..] && after2[n..][..v] == e.value
            && input[|input| - |after2| + n..] == after2[n..]
  {
    hide Varint, ReadVarint;
    var input, n, v := EntryBytes(shared, e) + rest, |e.key| - shared, |e.value|;
    var after2 := e.key[shared..] + e.value + rest;
    var after1 := Varint(v) + after2;
    var after0 := Varint(n) + after1;
    assert input == Varint(shared) + after0;
    Varint32RoundTrip(shared, after0);
    Varint32RoundTrip(n, after1);
    Varint32RoundTrip(v, after2);
    EntryLength(shared, e);
  }

  lemma OneByteEach(input: Bytes)
    requires |input| >= 3 && input[0] < 128 && input[1] < 128 && input[2] < 128
    ensures ReadVarint32(input) == Some((input[0] as nat, input[1..]))
    ensures ReadVarint32(input[1..]) == Some((input[1] as nat, input[2..]))
    ensures ReadVarint32(input[2..]) == Some((input[2] as nat, input[3..]))
  {
    hide ReadVarint;
    ReadLast(input, 1, 5, 0, TWO_32);
    ReadLast(input[1..], 1, 5, 0, TWO_32);
    ReadLast(input[2..], 1, 5, 0, TWO_32);
  }

  lemma VarintShortens(input: Bytes)
    requires ReadVarint32(input).Some?
    ensures |ReadVarint32(input).value.1| < |input|
  {
    hide ReadVarint;
    ReadVarintShortens(input, 1, 5, 0, TWO_32);
  }
}
