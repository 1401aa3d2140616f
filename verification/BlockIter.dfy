/** The iterator over a prefix-compressed block (table/block.cc, Block::Iter). */
module BlockIter {
  import opened Keys
  import opened Coding
  import opened Block

  /** `data` is the block of these entries: its parts, as the iterator finds them. */
  ghost predicate IsBlock(data: Bytes, es: seq<KV>, shared: seq<nat>, starts: seq<nat>, restarts: nat, numRestarts: nat)
  {
    && Layout(es, shared, starts) && data == Encoded(es, shared, starts) && |data| < TWO_32
    && restarts == Pos(es, shared, |es|) && numRestarts == |starts|
  }

  /** Below 4 GB every length fits the 32-bit fields. */
  lemma Sizes(data: Bytes, es: seq<KV>, shared: seq<nat>, starts: seq<nat>, restarts: nat, numRestarts: nat)
    requires IsBlock(data, es, shared, starts, restarts, numRestarts)
    ensures Shares(es, shared) && |shared| == |es| && (forall i :: 0 <= i < |es| ==> shared[i] <= |es[i].key|)
    ensures numRestarts == |starts| > 0 && restarts + 4 * numRestarts + 4 == |data|
    ensures data[..restarts] == Data(es, shared, |es|)
    ensures starts[0] == 0 && forall r :: 0 <= r < |starts| ==> starts[r] <= |es| && (starts[r] == |es| ==> es == [])
    ensures forall r, s :: 0 <= r < s < |starts| ==> starts[r] < starts[s]
  {
    hide Data, Words, Fixed;
  }

  /** A restart point read from the array is where its entry begins. */
  lemma PointAt(data: Bytes, es: seq<KV>, shared: seq<nat>, starts: seq<nat>, restarts: nat, numRestarts: nat, r: nat)
    requires IsBlock(data, es, shared, starts, restarts, numRestarts) && r < numRestarts
    ensures restarts + 4 * r + 4 <= |data| && starts[r] <= |es| == |shared|
    ensures (forall i :: 0 <= i < |es| ==> shared[i] <= |es[i].key|)
    ensures DecodeFixed(data[restarts + 4 * r..restarts + 4 * r + 4]) == Pos(es, shared, starts[r])
  {
    hide Data, Words, Fixed, DecodeFixed;
    Sizes(data, es, shared, starts, restarts, numRestarts);
    var points := Points(es, shared, starts);
    WordAt(points, r);
    DataGrows(es, shared, starts[r], |es|);
    Fixed32RoundTrip(points[r]);
    assert data[restarts + 4 * r..restarts + 4 * r + 4] == Words(points)[4 * r..4 * r + 4];
  }

  /** What an entry's bytes decode to, in place. */
  lemma EntryInPlace(data: Bytes, es: seq<KV>, shared: seq<nat>, starts: seq<nat>, restarts: nat, numRestarts: nat,
                     i: nat)
    requires IsBlock(data, es, shared, starts, restarts, numRestarts) && i < |es|
    ensures |shared| == |es| && (forall k :: 0 <= k < |es| ==> shared[k] <= |es[k].key|)
    ensures Pos(es, shared, i) < Pos(es, shared, i + 1) <= restarts <= |data|
    ensures data[Pos(es, shared, i)..restarts] == EntryBytes(shared[i], es[i]) + data[Pos(es, shared, i + 1)..restarts]
    ensures shared[i] <= |es[i].key| < TWO_32 && |es[i].value| < TWO_32
    ensures |EntryBytes(shared[i], es[i])| == Pos(es, shared, i + 1) - Pos(es, shared, i)
  {
    hide Data, Words, Fixed, EntryBytes;
    Sizes(data, es, shared, starts, restarts, numRestarts);
    DataAt(es, shared, i);
    EntryHolds(shared[i], es[i]);
    KeyBound(es, shared, i);
    var all, p, q := Data(es, shared, |es|), Pos(es, shared, i), Pos(es, shared, i + 1);
    assert data[p..restarts] == data[..restarts][p..] == all[p..];
    assert data[q..restarts] == data[..restarts][q..] == all[q..];
    assert all[p..] == all[p..q] + all[q..];
  }

  lemma EntryHolds(shared: nat, e: KV)
    requires shared <= |e.key|
    ensures |EntryBytes(shared, e)| >= |e.key| - shared + |e.value|
  {
  }

  /** Keys are no longer than the data: each shared byte was once stored. */
  lemma {:induction false} KeyBound(es: seq<KV>, shared: seq<nat>, i: nat)
    requires Shares(es, shared) && i < |es|
    ensures |shared| == |es| && (forall k :: 0 <= k < |es| ==> shared[k] <= |es[k].key|)
    ensures |es[i].key| <= Pos(es, shared, i + 1) <= Pos(es, shared, |es|)
  {
    hide EntryBytes, Data;
    SharesBound(es, shared);
    EntryHolds(shared[i], es[i]);
    DataStep(es, shared, i);
    DataGrows(es, shared, i + 1, |es|);
    if i > 0 {
      KeyBound(es, shared, i - 1);
      assert SharesWith(es[i - 1].key, es[i].key, shared[i]);
    }
  }

  /** The iterator may parse entry `i` next: it stands at its first byte and holds what its key shares. */
  ghost predicate Before(es: seq<KV>, shared: seq<nat>, i: nat, next: nat, key: Bytes) {
    && |shared| == |es| && (forall k :: 0 <= k < |es| ==> shared[k] <= |es[k].key|) && i <= |es|
    && next == Pos(es, shared, i)
    && (i < |es| ==> SharesWith(key, es[i].key, shared[i]))
  }

  class Iter {
    const data: Bytes
    /** Where the restart array begins: also the position that means invalid. */
    const restarts: nat
    const numRestarts: nat
    const less: (Bytes, Bytes) -> bool
    var current: nat
    var restartIndex: nat
    var key: Bytes
    var valueStart: nat
    var valueLength: nat
    ghost const es: seq<KV>
    ghost const shared: seq<nat>
    ghost const starts: seq<nat>
    /** The current entry, |es| if there is none. */
    ghost var at: nat

    ghost predicate Block()
      reads this
    {
      IsBlock(data, es, shared, starts, restarts, numRestarts)
    }

    ghost predicate Ok()
      reads this
    {
      && Block() && at <= |es|
      && (at == |es| ==> current == restarts)
      && (at < |es| ==> OnEntry(data, es, shared, starts, restarts, numRestarts, at, current, key, valueStart,
                                valueLength, restartIndex))
    }

    constructor (data: Bytes, restarts: nat, numRestarts: nat, less: (Bytes, Bytes) -> bool, ghost es: seq<KV>,
                 ghost shared: seq<nat>, ghost starts: seq<nat>)
      requires IsBlock(data, es, shared, starts, restarts, numRestarts)
      ensures Ok() && at == |es| && this.es == es && this.data == data && this.less == less
    {
      this.data, this.restarts, this.numRestarts, this.less := data, restarts, numRestarts, less;
      this.es, this.shared, this.starts := es, shared, starts;
      current, restartIndex, key, valueStart, valueLength := restarts, numRestarts, [], 0, 0;
      at := |es|;
    }

    predicate Valid()
      reads this
    {
      current < restarts
    }

    /** Valid, key and value are those of a cursor over the entries. */
    lemma Shows()
      requires Ok()
      ensures Valid() <==> at < |es|
      ensures Valid() ==> key == es[at].key && valueStart + valueLength <= |data|
                          && data[valueStart..valueStart + valueLength] == es[at].value
    {
      if at < |es| { EntryInPlace(data, es, shared, starts, restarts, numRestarts, at); }
    }

    method GetRestartPoint(r: nat) returns (offset: nat)
      requires Block() && r < numRestarts
      ensures r < |starts| && starts[r] <= |es| == |shared| && (forall i :: 0 <= i < |es| ==> shared[i] <= |es[i].key|)
      ensures offset == Pos(es, shared, starts[r])
    {
      Sizes(data, es, shared, starts, restarts, numRestarts);
      PointAt(data, es, shared, starts, restarts, numRestarts, r);
      offset := DecodeFixed(data[restarts + 4 * r..restarts + 4 * r + 4]);
    }

    method SeekToRestartPoint(r: nat)
      requires Block() && r < numRestarts
      modifies this`key, this`restartIndex, this`valueStart, this`valueLength
      ensures restartIndex == r && r < |starts| && Before(es, shared, starts[r], valueStart + valueLength, key)
    {
      key := [];
      restartIndex := r;
      var offset := GetRestartPoint(r);
      valueStart, valueLength := offset, 0;
      RestartSharesNothing(data, es, shared, starts, restarts, numRestarts, r);
    }

    /** Parses the entry after the current value, if there is one. */
    method ParseNextKey(ghost i: nat) returns (ok: bool)
      requires Block() && Before(es, shared, i, valueStart + valueLength, key)
      requires restartIndex < |starts| && starts[restartIndex] <= i
      modifies this
      ensures Ok() && at == i && (ok <==> i < |es|)
      ensures ok ==> Before(es, shared, i + 1, valueStart + valueLength, key) && restartIndex < |starts|
                     && starts[restartIndex] <= i
    {
      hide Data, Layout, EntryBytes, Before, IsBlock, Pos, OnEntry;
      BeforeFacts(data, es, shared, starts, restarts, numRestarts, i, valueStart + valueLength, key);
      at := i;
      current := valueStart + valueLength;
      if current >= restarts {
        current := restarts;
        restartIndex := numRestarts;
        return false;
      }
      TakeEntry(i);
      AdvanceRestart(i);
      OnNow(data, es, shared, starts, restarts, numRestarts, i, current, key, valueStart, valueLength, restartIndex);
      ok := true;
    }

    /** Extends the shared part of the key and finds the value. */
    method TakeEntry(ghost i: nat)
      requires Block() && i < |es| == |shared| && (forall k :: 0 <= k < |es| ==> shared[k] <= |es[k].key|)
      requires current == Pos(es, shared, i) < restarts && SharesWith(key, es[i].key, shared[i])
      modifies this`key, this`valueStart, this`valueLength
      ensures key == es[i].key && valueStart + valueLength == Pos(es, shared, i + 1) <= |data|
      ensures data[valueStart..valueStart + valueLength] == es[i].value
    {
      hide Data, Layout, EntryBytes, IsBlock, Pos;
      EntryInPlace(data, es, shared, starts, restarts, numRestarts, i);
      var r := DecodeEntry(data[current..restarts], shared[i], es[i], data[Pos(es, shared, i + 1)..restarts]);
      var (share, nonShared, length, header) := r.value;
      Parsed(data, es, shared, starts, restarts, numRestarts, i, current, header, key);
      key := key[..share] + data[current + header..current + header + nonShared];
      valueStart, valueLength := current + header + nonShared, length;
    }

    /** Moves on to the last restart point before the current entry. */
    method AdvanceRestart(ghost i: nat)
      requires Block() && i < |es| && restartIndex < |starts| && starts[restartIndex] <= i
      requires |shared| == |es| && (forall k :: 0 <= k < |es| ==> shared[k] <= |es[k].key|)
      requires current == Pos(es, shared, i)
      modifies this`restartIndex
      ensures restartIndex < |starts| && starts[restartIndex] <= i
    {
      hide Data, Layout, IsBlock, Pos;
      Sizes(data, es, shared, starts, restarts, numRestarts);
      while restartIndex + 1 < numRestarts
        invariant restartIndex < |starts| && starts[restartIndex] <= i
        decreases numRestarts - restartIndex
      {
        var p := GetRestartPoint(restartIndex + 1);
        if p >= current { break; }
        PosOrder(es, shared, starts[restartIndex + 1], i);
        restartIndex := restartIndex + 1;
      }
    }

    method Next()
      requires Ok() && Valid()
      modifies this
      ensures Ok() && at == old(at) + 1
    {
      hide IsBlock, Before, OnEntry;
      ghost var i := at;
      Shows();
      Leaves(data, es, shared, starts, restarts, numRestarts, i, current, key, valueStart, valueLength, restartIndex);
      var ok := ParseNextKey(i + 1);
    }

    /** Back to a restart point before the current entry, then forward to the entry just before it. */
    method Prev()
      requires Ok() && Valid()
      modifies this
      ensures Ok() && at == if old(at) == 0 then |es| else old(at) - 1
    {
      hide IsBlock, Before, OnEntry, Data, Pos;
      ghost var i := at;
      Shows();
      Leaves(data, es, shared, starts, restarts, numRestarts, i, current, key, valueStart, valueLength, restartIndex);
      Sizes(data, es, shared, starts, restarts, numRestarts);
      var original := current;
      while true
        invariant restartIndex < |starts| == numRestarts && Block() && at == i
        decreases restartIndex
      {
        var p := GetRestartPoint(restartIndex);
        PosOrder(es, shared, starts[restartIndex], i);
        if p < original { break; }
        if restartIndex == 0 {
          current := restarts;
          restartIndex := numRestarts;
          at := |es|;
          FirstIsFirst(es, shared, starts, i);
          return;
        }
        restartIndex := restartIndex - 1;
      }
      SeekToRestartPoint(restartIndex);
      ghost var next := starts[restartIndex];
      var more := true;
      while true
        invariant Block() && next < i && i < |es| && Before(es, shared, next, valueStart + valueLength, key)
        invariant restartIndex < |starts| && starts[restartIndex] <= next
        decreases i - next
      {
        more := ParseNextKey(next);
        EndsAt(es, shared, next + 1, valueStart + valueLength, key);
        PosOrder(es, shared, next + 1, i);
        if !more || valueStart + valueLength >= original { break; }
        next := next + 1;
      }
    }

    method SeekToFirst()
      requires Block()
      modifies this
      ensures Ok() && at == 0
    {
      hide IsBlock, Before, OnEntry;
      Sizes(data, es, shared, starts, restarts, numRestarts);
      SeekToRestartPoint(0);
      var ok := ParseNextKey(0);
    }

    method SeekToLast()
      requires Block()
      modifies this
      ensures Ok() && at == if es == [] then 0 else |es| - 1
    {
      hide IsBlock, Before, OnEntry, Data, Pos;
      Sizes(data, es, shared, starts, restarts, numRestarts);
      SeekToRestartPoint(numRestarts - 1);
      ghost var next := starts[restartIndex];
      while true
        invariant Block() && next <= |es| && (next == |es| ==> es == [])
        invariant Before(es, shared, next, valueStart + valueLength, key)
        invariant restartIndex < |starts| && starts[restartIndex] <= next
        decreases |es| - next
      {
        var ok := ParseNextKey(next);
        if !ok { break; }
        EndsAt(es, shared, next + 1, valueStart + valueLength, key);
        PosOrder(es, shared, next + 1, |es|);
        EndIsRestarts(data, es, shared, starts, restarts, numRestarts);
        if valueStart + valueLength >= restarts { break; }
        next := next + 1;
      }
    }

    /** The first entry at or after `target`: binary search over the restart points, then forward. */
    method Seek(target: Bytes)
      requires Block() && Monotone(es, less, target)
      modifies this
      ensures Ok() && (forall i :: 0 <= i < at ==> less(es[i].key, target)) && (at < |es| ==> !less(es[at].key, target))
    {
      hide IsBlock, Before, OnEntry, Data, Pos, EntryBytes;
      Sizes(data, es, shared, starts, restarts, numRestarts);
      var left, right := 0, numRestarts - 1;
      while left < right
        invariant 0 <= left <= right < numRestarts
        invariant left > 0 ==> starts[left] < |es| && less(es[starts[left]].key, target)
      {
        var mid := (left + right + 1) / 2;
        var region := GetRestartPoint(mid);
        ghost var i := starts[mid];
        assert starts[0] < starts[mid];
        RestartEntry(data, es, shared, starts, restarts, numRestarts, mid);
        EntryInPlace(data, es, shared, starts, restarts, numRestarts, i);
        var r := DecodeEntry(data[region..restarts], shared[i], es[i], data[Pos(es, shared, i + 1)..restarts]);
        var midKey := data[region + r.value.3..region + r.value.3 + r.value.1];
        WholeKey(data, restarts, region, r.value.3, es[i]);
        if less(midKey, target) {
          left := mid;
        } else {
          right := mid - 1;
        }
      }
      SeekToRestartPoint(left);
      ghost var next := starts[left];
      if left > 0 { EarlierLess(es, less, target, next); }
      while true
        invariant Block() && next <= |es| && Before(es, shared, next, valueStart + valueLength, key)
        invariant restartIndex < |starts| && starts[restartIndex] <= next
        invariant forall i :: 0 <= i < next ==> less(es[i].key, target)
        decreases |es| - next
      {
        var ok := ParseNextKey(next);
        if !ok { return; }
        Shows();
        KeyNow(data, es, shared, starts, restarts, numRestarts, at, current, key, valueStart, valueLength,
               restartIndex);
        if !less(key, target) { return; }
        next := next + 1;
      }
    }
  }

  /** Keys before the target form a prefix; any strict order on strictly increasing keys gives that. */
  ghost predicate Monotone(es: seq<KV>, less: (Bytes, Bytes) -> bool, target: Bytes) {
    forall i, j :: 0 <= i < j < |es| && less(es[j].key, target) ==> less(es[i].key, target)
  }

  ghost predicate OnEntry(data: Bytes, es: seq<KV>, shared: seq<nat>, starts: seq<nat>, restarts: nat, numRestarts: nat,
                          i: nat, current: nat, key: Bytes, valueStart: nat, valueLength: nat, restartIndex: nat) {
    && i < |es| == |shared| && (forall k :: 0 <= k < |es| ==> shared[k] <= |es[k].key|)
    && current == Pos(es, shared, i) && key == es[i].key
    && valueStart + valueLength == Pos(es, shared, i + 1) <= |data|
    && data[valueStart..valueStart + valueLength] == es[i].value
    && restartIndex < |starts| == numRestarts && starts[restartIndex] <= i
  }

  lemma KeyNow(data: Bytes, es: seq<KV>, shared: seq<nat>, starts: seq<nat>, restarts: nat, numRestarts: nat,
               i: nat, current: nat, key: Bytes, valueStart: nat, valueLength: nat, restartIndex: nat)
    requires OnEntry(data, es, shared, starts, restarts, numRestarts, i, current, key, valueStart, valueLength,
                     restartIndex)
    ensures i < |es| && key == es[i].key
  {
  }

  lemma OnNow(data: Bytes, es: seq<KV>, shared: seq<nat>, starts: seq<nat>, restarts: nat, numRestarts: nat,
              i: nat, current: nat, key: Bytes, valueStart: nat, valueLength: nat, restartIndex: nat)
    requires IsBlock(data, es, shared, starts, restarts, numRestarts) && i < |es| == |shared|
    requires forall k :: 0 <= k < |es| ==> shared[k] <= |es[k].key|
    requires current == Pos(es, shared, i) && key == es[i].key
    requires valueStart + valueLength == Pos(es, shared, i + 1) <= |data|
    requires data[valueStart..valueStart + valueLength] == es[i].value && restartIndex < |starts|
    requires starts[restartIndex] <= i
    ensures OnEntry(data, es, shared, starts, restarts, numRestarts, i, current, key, valueStart, valueLength,
                    restartIndex)
    ensures Before(es, shared, i + 1, valueStart + valueLength, key)
  {
    hide Data, Pos;
    if i + 1 < |es| { assert SharesWith(es[i].key, es[i + 1].key, shared[i + 1]); }
  }

  /** From an entry, the next one may be parsed. */
  lemma Leaves(data: Bytes, es: seq<KV>, shared: seq<nat>, starts: seq<nat>, restarts: nat, numRestarts: nat,
               i: nat, current: nat, key: Bytes, valueStart: nat, valueLength: nat, restartIndex: nat)
    requires IsBlock(data, es, shared, starts, restarts, numRestarts)
    requires OnEntry(data, es, shared, starts, restarts, numRestarts, i, current, key, valueStart, valueLength,
                     restartIndex)
    ensures Before(es, shared, i + 1, valueStart + valueLength, key) && restartIndex < |starts|
    ensures starts[restartIndex] <= i
    ensures i < |es| == |shared| && (forall k :: 0 <= k < |es| ==> shared[k] <= |es[k].key|)
    ensures current == Pos(es, shared, i)
  {
    hide Data, Pos;
    if i + 1 < |es| { assert SharesWith(es[i].key, es[i + 1].key, shared[i + 1]); }
  }

  lemma BeforeFacts(data: Bytes, es: seq<KV>, shared: seq<nat>, starts: seq<nat>, restarts: nat, numRestarts: nat,
                    i: nat, next: nat, key: Bytes)
    requires IsBlock(data, es, shared, starts, restarts, numRestarts) && Before(es, shared, i, next, key)
    ensures i <= |es| == |shared| && (forall k :: 0 <= k < |es| ==> shared[k] <= |es[k].key|)
    ensures next == Pos(es, shared, i)
    ensures next >= restarts <==> i == |es|
    ensures i < |es| ==> SharesWith(key, es[i].key, shared[i])
  {
    hide Data, EntryBytes;
    DataGrows(es, shared, i, |es|);
  }

  lemma EndsAt(es: seq<KV>, shared: seq<nat>, i: nat, next: nat, key: Bytes)
    requires Before(es, shared, i, next, key)
    ensures i <= |es| == |shared| && (forall k :: 0 <= k < |es| ==> shared[k] <= |es[k].key|)
    ensures next == Pos(es, shared, i)
  {
  }

  lemma EndIsRestarts(data: Bytes, es: seq<KV>, shared: seq<nat>, starts: seq<nat>, restarts: nat, numRestarts: nat)
    requires IsBlock(data, es, shared, starts, restarts, numRestarts)
    ensures |shared| == |es| && (forall k :: 0 <= k < |es| ==> shared[k] <= |es[k].key|)
    ensures restarts == Pos(es, shared, |es|)
  {
  }

  lemma PosOrder(es: seq<KV>, shared: seq<nat>, i: nat, j: nat)
    requires Shares(es, shared) && i <= |es| && j <= |es|
    ensures |shared| == |es| && (forall k :: 0 <= k < |es| ==> shared[k] <= |es[k].key|)
    ensures Pos(es, shared, i) < Pos(es, shared, j) <==> i < j
  {
    hide Data, EntryBytes;
    SharesBound(es, shared);
    if i <= j { DataGrows(es, shared, i, j); } else { DataGrows(es, shared, j, i); }
  }

  lemma FirstIsFirst(es: seq<KV>, shared: seq<nat>, starts: seq<nat>, i: nat)
    requires Shares(es, shared) && i < |es| && starts != [] && starts[0] == 0
    requires |shared| == |es| && (forall k :: 0 <= k < |es| ==> shared[k] <= |es[k].key|)
    requires Pos(es, shared, starts[0]) >= Pos(es, shared, i)
    ensures i == 0
  {
    PosOrder(es, shared, 0, i);
  }

  lemma RestartSharesNothing(data: Bytes, es: seq<KV>, shared: seq<nat>, starts: seq<nat>, restarts: nat,
                             numRestarts: nat, r: nat)
    requires IsBlock(data, es, shared, starts, restarts, numRestarts) && r < numRestarts
    ensures r < |starts| && starts[r] <= |es| == |shared| && (forall k :: 0 <= k < |es| ==> shared[k] <= |es[k].key|)
    ensures Before(es, shared, starts[r], Pos(es, shared, starts[r]), [])
  {
    hide Data, Words;
  }

  lemma RestartEntry(data: Bytes, es: seq<KV>, shared: seq<nat>, starts: seq<nat>, restarts: nat, numRestarts: nat,
                     r: nat)
    requires IsBlock(data, es, shared, starts, restarts, numRestarts) && 0 < r < numRestarts
    ensures r < |starts| && starts[r] < |es| == |shared| && shared[starts[r]] == 0
  {
    hide Data, Words;
    assert starts[0] < starts[r];
  }

  /** At a restart point the stored part is the whole key. */
  lemma WholeKey(data: Bytes, restarts: nat, region: nat, header: nat, e: KV)
    requires region <= restarts <= |data| && region + header + |e.key| <= restarts
    requires data[region..restarts][header..][..|e.key|] == e.key[0..]
    ensures data[region + header..region + header + |e.key|] == e.key
  {
  }

  lemma EarlierLess(es: seq<KV>, less: (Bytes, Bytes) -> bool, target: Bytes, n: nat)
    requires Monotone(es, less, target) && n < |es| && less(es[n].key, target)
    ensures forall i :: 0 <= i < n ==> less(es[i].key, target)
  {
  }

  /** The parsed pieces make up the entry. */
  lemma Parsed(data: Bytes, es: seq<KV>, shared: seq<nat>, starts: seq<nat>, restarts: nat, numRestarts: nat, i: nat,
               current: nat, header: nat, key: Bytes)
    requires IsBlock(data, es, shared, starts, restarts, numRestarts) && i < |es| == |shared|
    requires forall k :: 0 <= k < |es| ==> shared[k] <= |es[k].key|
    requires current == Pos(es, shared, i) < restarts && SharesWith(key, es[i].key, shared[i])
    requires var n, v := |es[i].key| - shared[i], |es[i].value|;
             && header + n + v == |EntryBytes(shared[i], es[i])| && current + header + n + v <= restarts <= |data|
             && data[current..restarts][header..][..n] == es[i].key[shared[i]..]
             && data[current..restarts][header + n..][..v] == es[i].value
    ensures var n, v := |es[i].key| - shared[i], |es[i].value|;
            && key[..shared[i]] + data[current + header..current + header + n] == es[i].key
            && data[current + header + n..current + header + n + v] == es[i].value
            && current + header + n + v == Pos(es, shared, i + 1)
  {
    hide Data, Pos, EntryBytes, IsBlock;
    EntryInPlace(data, es, shared, starts, restarts, numRestarts, i);
    var n, v := |es[i].key| - shared[i], |es[i].value|;
    SliceOfTail(data, current, restarts, header, n);
    SliceOfTail(data, current, restarts, header + n, v);
    assert key[..shared[i]] == es[i].key[..shared[i]];
    assert es[i].key == es[i].key[..shared[i]] + es[i].key[shared[i]..];
  }

  lemma SliceOfTail(data: Bytes, from: nat, upto: nat, skip: nat, n: nat)
    requires from + skip + n <= upto <= |data|
    ensures data[from..upto][skip..][..n] == data[from + skip..from + skip + n]
  {
  }

  /** Block's constructor and NewIterator: the number of restart points is the last word. */
  method NewIterator(data: Bytes, less: (Bytes, Bytes) -> bool, ghost es: seq<KV>, ghost shared: seq<nat>,
                     ghost starts: seq<nat>)
    returns (it: Iter)
    requires Layout(es, shared, starts) && data == Encoded(es, shared, starts) && |data| < TWO_32
    ensures fresh(it) && it.Ok() && it.es == es && it.less == less
  {
    hide Data, Words, Layout, Points, Fixed;
    LastWord(data, es, shared, starts);
    var numRestarts := DecodeFixed(data[|data| - 4..]);
    var restartOffset := |data| - (1 + numRestarts) * 4;
    it := new Iter(data, restartOffset, numRestarts, less, es, shared, starts);
  }

  lemma LastWord(data: Bytes, es: seq<KV>, shared: seq<nat>, starts: seq<nat>)
    requires Layout(es, shared, starts) && data == Encoded(es, shared, starts) && |data| < TWO_32
    ensures |data| >= 4 && DecodeFixed(data[|data| - 4..]) == |starts| && |data| - (1 + |starts|) * 4 >= 0
    ensures IsBlock(data, es, shared, starts, |data| - (1 + |starts|) * 4, |starts|)
  {
    hide Data, Words, Fixed, DecodeFixed;
    LayoutFacts(es, shared, starts);
    Fixed32RoundTrip(|starts|);
    assert data[|data| - 4..] == Fixed32(|starts|);
  }

  /** Building a block and iterating over it from the first entry gives back exactly what was added. */
  method ReadBack(entries: seq<KV>, interval: nat, less: (Bytes, Bytes) -> bool) returns (block: Bytes, out: seq<KV>)
    requires interval >= 1
    ensures |block| < TWO_32 ==> out == entries
  {
    hide Data, Words, Layout, Points, Encoded, Fixed, IsBlock, OnEntry;
    block := BuildBlock(entries, interval);
    out := [];
    if |block| < TWO_32 {
      ghost var shared, starts :| Layout(entries, shared, starts) && block == Encoded(entries, shared, starts);
      var it := NewIterator(block, less, entries, shared, starts);
      it.SeekToFirst();
      it.Shows();
      while it.Valid()
        invariant fresh(it) && it.Ok() && it.es == entries && out == entries[..it.at]
        invariant (it.Valid() <==> it.at < |entries|)
        decreases |entries| - it.at
      {
        it.Shows();
        out := out + [KV(it.key, it.data[it.valueStart..it.valueStart + it.valueLength])];
        it.Next();
        it.Shows();
      }
      assert entries[..|entries|] == entries;
    }
  }
}
