/**
 An encoded message as the list of its wire records: what each one delivers to the
 struct, and the struct after any number of them.
 */
module NanopbRecords {
  import opened Wrappers
  import opened Keys
  import opened Coding
  import opened NanopbTypes

  /** A tagged payload for field `idx`; `after` is the field's slot once it has been decoded. */
  datatype Rec = Rec(idx: nat, wireType: nat, payload: Bytes, after: Slot)

  function BytesOf(b: Option<Bytes>): Bytes { if b.Some? then b.value else [] }

  function ItemRecords(idx: nat, f: Field, items: seq<Value>, k: nat): (r: seq<Rec>)
    requires k <= |items|
    ensures |r| == k
  {
    if k == 0 then [] else
      ItemRecords(idx, f, items,
                  k - 1) + [Rec(idx, WireType(f.ltype), BytesOf(ScalarBytes(f, items[k - 1])), Many(items[..k]))]
  }

  function SlotRecords(idx: nat, f: Field, s: Slot): seq<Rec> {
    match s
    case Single(v) => [Rec(idx, WireType(f.ltype), BytesOf(ScalarBytes(f, v)), s)]
    case Maybe(has, v) => if has then [Rec(idx, WireType(f.ltype), BytesOf(ScalarBytes(f, v)), s)] else []
    case Choice(v) => if v.Some? then [Rec(idx, WireType(f.ltype), BytesOf(ScalarBytes(f, v.value)), s)] else []
    case Many(items) =>
      if items == [] then []
      else if Packable(f.ltype) then [Rec(idx, WT_STRING, Prefixed(BytesOf(PackedBytes(f, items, |items|))), s)]
      else ItemRecords(idx, f, items, |items|)
  }

  /** The records of the first `n` fields. */
  function Records(fields: seq<Field>, m: seq<Slot>, n: nat): seq<Rec>
    requires n <= |fields| == |m|
  {
    if n == 0 then [] else Records(fields, m, n - 1) + SlotRecords(n - 1, fields[n - 1], m[n - 1])
  }

  predicate InRange(fields: seq<Field>, recs: seq<Rec>) {
    forall k :: 0 <= k < |recs| ==> recs[k].idx < |fields|
  }

  /** The bytes of the records from `k` on. */
  function Wire(fields: seq<Field>, recs: seq<Rec>, k: nat): Bytes
    requires k <= |recs| && InRange(fields, recs)
    decreases |recs| - k
  {
    if k == |recs| then [] else
      TagBytes(recs[k].wireType, fields[recs[k].idx].tag) + (recs[k].payload + Wire(fields, recs, k + 1))
  }

  /** The struct after the first `k` records. */
  function After(fields: seq<Field>, recs: seq<Rec>, k: nat): (r: seq<Slot>)
    requires k <= |recs| && InRange(fields, recs)
    ensures |r| == |fields|
  {
    if k == 0 then Defaults(fields) else After(fields, recs, k - 1)[recs[k - 1].idx := recs[k - 1].after]
  }

  /** A record with this payload takes the field's slot from `before` to `after`. */
  ghost predicate Delivers(f: Field, wireType: nat, payload: Bytes, before: Slot, after: Slot) {
    match f.htype
    case Required =>
      after.Single? && before == DefaultSlot(f) && wireType == WireType(f.ltype) && Good(f, after.v)
      && ScalarBytes(f, after.v) == Some(payload)
    case Optional =>
      after.Maybe? && after.has && before == DefaultSlot(f) && wireType == WireType(f.ltype) && Good(f, after.v)
      && ScalarBytes(f, after.v) == Some(payload)
    case OneOf(_) =>
      after.Choice? && after.value.Some? && before == DefaultSlot(f) && wireType == WireType(f.ltype)
      && Good(f, after.value.value) && ScalarBytes(f, after.value.value) == Some(payload)
    case Repeated(size) =>
      && after.Many? && before.Many? && 0 < |after.items| <= size
      && (forall i :: 0 <= i < |after.items| ==> Good(f, after.items[i]))
      && if Packable(f.ltype) then
           var b := PackedBytes(f, after.items, |after.items|);
           before.items == [] && wireType == WT_STRING && b.Some? && |b.value| < TWO_32 && payload == Prefixed(b.value)
         else
           var last := |after.items| - 1;
           before.items == after.items[..last] && wireType == WireType(f.ltype)
           && ScalarBytes(f, after.items[last]) == Some(payload)
  }

  /** The strings a record brings are terminated. */
  ghost predicate BringsTerminated(f: Field, after: Slot) {
    match after
    case Single(v) => Terminated(f, v)
    case Maybe(_, v) => Terminated(f, v)
    case Choice(v) => v.Some? ==> Terminated(f, v.value)
    case Many(items) => items != [] ==> Terminated(f, items[|items| - 1])
  }

  ghost predicate AllBringTerminated(fields: seq<Field>, recs: seq<Rec>, k: nat)
    requires k <= |recs| && InRange(fields, recs)
  {
    forall i :: 0 <= i < k ==> BringsTerminated(fields[recs[i].idx], recs[i].after)
  }

  ghost predicate EachBringsTerminated(f: Field, recs: seq<Rec>) {
    forall k :: 0 <= k < |recs| ==> BringsTerminated(f, recs[k].after)
  }

  lemma SlotTerminated(idx: nat, f: Field, s: Slot)
    ensures EachBringsTerminated(f, SlotRecords(idx, f, s)) <==> TerminatedSlot(f, s)
  {
    if s.Many? && s.items != [] {
      TerminatedItems(f, s.items);
      if Packable(f.ltype) {
        assert forall v :: Terminated(f, v);
      } else {
        ItemsTerminated(idx, f, s.items);
      }
    } else if |SlotRecords(idx, f, s)| == 1 {
      assert SlotRecords(idx, f, s)[0].after == s;
    }
  }

  lemma TerminatedItems(f: Field, items: seq<Value>)
    ensures TerminatedSlot(f, Many(items)) <==> forall i :: 0 <= i < |items| ==> Terminated(f, items[i])
  {
  }

  lemma ItemsTerminated(idx: nat, f: Field, items: seq<Value>)
    ensures EachBringsTerminated(f, ItemRecords(idx, f, items, |items|)) <==> forall i :: 0 <= i < |items| ==>
              Terminated(f, items[i])
  {
    hide Terminated, ItemRecords;
    ItemRecordsIdx(idx, f, items, |items|);
    var r := ItemRecords(idx, f, items, |items|);
    forall k | 0 <= k < |items| ensures BringsTerminated(f, r[k].after) <==> Terminated(f, items[k]) {
      assert r[k].after == Many(items[..k + 1]) && items[..k + 1][k] == items[k];
    }
    if i :| 0 <= i < |items| && !Terminated(f, items[i]) {
      assert !BringsTerminated(f, r[i].after);
    }
  }

  /** The records bring no unterminated string exactly if the message has none. */
  lemma {:induction false} RecordsTerminated(fields: seq<Field>, m: seq<Slot>, n: nat)
    requires n <= |fields| == |m|
    ensures InRange(fields, Records(fields, m, n))
    ensures AllBringTerminated(fields, Records(fields, m, n), |Records(fields, m, n)|) <==>
            forall i :: 0 <= i < n ==> TerminatedSlot(fields[i], m[i])
  {
    hide SlotRecords, TerminatedSlot, Records, InRange, EachBringsTerminated, AllBringTerminated;
    RecordsStep(fields, m, n);
    if n > 0 {
      RecordsTerminated(fields, m, n - 1);
      SlotRecordsIdx(n - 1, fields[n - 1], m[n - 1]);
      SlotTerminated(n - 1, fields[n - 1], m[n - 1]);
      MoreTerminated(fields, Records(fields, m, n - 1), SlotRecords(n - 1, fields[n - 1], m[n - 1]), n - 1);
    } else {
      NoneBroughtYet(fields, Records(fields, m, 0));
    }
  }

  lemma NoneBroughtYet(fields: seq<Field>, recs: seq<Rec>)
    requires InRange(fields, recs)
    ensures AllBringTerminated(fields, recs, 0)
  {
  }

  lemma MoreTerminated(fields: seq<Field>, a: seq<Rec>, b: seq<Rec>, idx: nat)
    requires InRange(fields, a) && InRange(fields, b) && InRange(fields, a + b)
    requires b != [] ==> idx < |fields|
    requires forall k :: 0 <= k < |b| ==> b[k].idx == idx
    ensures idx < |fields| ==>
              (AllBringTerminated(fields, a + b, |a + b|) <==>
               AllBringTerminated(fields, a, |a|) && EachBringsTerminated(fields[idx], b))
  {
    hide BringsTerminated;
    assert forall k :: 0 <= k < |a| ==> (a + b)[k] == a[k];
    assert forall k :: 0 <= k < |b| ==> (a + b)[|a| + k] == b[k];
  }

  // ---------- the records are the message ----------

  lemma {:induction false} RecordsInRange(fields: seq<Field>, m: seq<Slot>, n: nat)
    requires n <= |fields| == |m|
    ensures forall k :: 0 <= k < |Records(fields, m, n)| ==> Records(fields, m, n)[k].idx < n
  {
    if n > 0 {
      RecordsInRange(fields, m, n - 1);
      SlotRecordsIdx(n - 1, fields[n - 1], m[n - 1]);
    }
  }

  lemma {:induction false} ItemRecordsIdx(idx: nat, f: Field, items: seq<Value>, k: nat)
    requires k <= |items|
    ensures forall i :: 0 <= i < k ==>
              ItemRecords(idx, f, items, k)[i] == Rec(idx, WireType(f.ltype), BytesOf(ScalarBytes(f, items[i])),
                                                      Many(items[..i + 1]))
  {
    if k > 0 {
      ItemRecordsIdx(idx, f, items, k - 1);
    }
  }

  lemma SlotRecordsIdx(idx: nat, f: Field, s: Slot)
    ensures forall k :: 0 <= k < |SlotRecords(idx, f, s)| ==> SlotRecords(idx, f, s)[k].idx == idx
  {
    if s.Many? && s.items != [] && !Packable(f.ltype) {
      ItemRecordsIdx(idx, f, s.items, |s.items|);
    }
  }

  lemma {:induction false} WireAppend(fields: seq<Field>, a: seq<Rec>, b: seq<Rec>, k: nat)
    requires InRange(fields, a) && InRange(fields, b) && k <= |a|
    ensures InRange(fields, a + b) && Wire(fields, a + b, k) == Wire(fields, a, k) + Wire(fields, b, 0)
    decreases |a| - k
  {
    if k < |a| {
      WireAppend(fields, a, b, k + 1);
      var tag := TagBytes(a[k].wireType, fields[a[k].idx].tag);
      Assoc(tag, a[k].payload, Wire(fields, a, k + 1), Wire(fields, b, 0));
    } else {
      WireShift(fields, a, b, 0);
    }
  }

  lemma Assoc(a: Bytes, b: Bytes, c: Bytes, d: Bytes)
    ensures a + (b + (c + d)) == a + (b + c) + d
    ensures a + b + c == a + (b + c)
  {
  }

  lemma {:induction false} WireShift(fields: seq<Field>, a: seq<Rec>, b: seq<Rec>, k: nat)
    requires InRange(fields, a) && InRange(fields, b) && k <= |b|
    ensures InRange(fields, a + b) && Wire(fields, a + b, |a| + k) == Wire(fields, b, k)
    decreases |b| - k
  {
    hide TagBytes;
    assert forall i :: 0 <= i < |b| ==> (a + b)[|a| + i] == b[i];
    if k < |b| {
      WireShift(fields, a, b, k + 1);
    }
  }

  lemma OneRecord(fields: seq<Field>, r: Rec)
    requires r.idx < |fields|
    ensures Wire(fields, [r], 0) == TagBytes(r.wireType, fields[r.idx].tag) + r.payload
  {
    assert Wire(fields, [r], 1) == [];
    assert r.payload + [] == r.payload;
  }

  lemma {:induction false} ItemsOnWire(fields: seq<Field>, idx: nat, items: seq<Value>, k: nat)
    requires idx < |fields| && k <= |items| && UnpackedBytes(fields[idx], items, k).Some?
    ensures InRange(fields, ItemRecords(idx, fields[idx], items, k))
    ensures UnpackedBytes(fields[idx], items, k) == Some(Wire(fields, ItemRecords(idx, fields[idx], items, k), 0))
  {
    var f := fields[idx];
    ItemRecordsIdx(idx, f, items, k);
    if k > 0 {
      ItemsOnWire(fields, idx, items, k - 1);
      var r := Rec(idx, WireType(f.ltype), BytesOf(ScalarBytes(f, items[k - 1])), Many(items[..k]));
      WireAppend(fields, ItemRecords(idx, f, items, k - 1), [r], 0);
      OneRecord(fields, r);
    }
  }

  lemma SlotOnWire(fields: seq<Field>, idx: nat, s: Slot)
    requires idx < |fields| && SlotBytes(fields[idx], s).Some?
    ensures InRange(fields, SlotRecords(idx, fields[idx], s))
    ensures SlotBytes(fields[idx], s) == Some(Wire(fields, SlotRecords(idx, fields[idx], s), 0))
  {
    var f := fields[idx];
    SlotRecordsIdx(idx, f, s);
    if s.Many? && s.items != [] && !Packable(f.ltype) {
      ItemsOnWire(fields, idx, s.items, |s.items|);
    } else if |SlotRecords(idx, f, s)| == 1 {
      OneRecord(fields, SlotRecords(idx, f, s)[0]);
    }
  }

  lemma {:induction false} MessageOnWire(fields: seq<Field>, m: seq<Slot>, n: nat)
    requires n <= |fields| == |m| && MessageBytes(fields, m, n).Some?
    ensures InRange(fields, Records(fields, m, n))
    ensures MessageBytes(fields, m, n) == Some(Wire(fields, Records(fields, m, n), 0))
  {
    RecordsInRange(fields, m, n);
    if n > 0 {
      MessageOnWire(fields, m, n - 1);
      SlotOnWire(fields, n - 1, m[n - 1]);
      WireAppend(fields, Records(fields, m, n - 1), SlotRecords(n - 1, fields[n - 1], m[n - 1]), 0);
    }
  }

  // ---------- what the records leave behind ----------

  lemma {:induction false} AfterPrefix(fields: seq<Field>, a: seq<Rec>, b: seq<Rec>, k: nat)
    requires InRange(fields, a) && InRange(fields, b) && k <= |a|
    ensures InRange(fields, a + b) && After(fields, a + b, k) == After(fields, a, k)
  {
    if k > 0 {
      AfterPrefix(fields, a, b, k - 1);
    }
  }

  /** Records that all go to field `idx` change only its slot. */
  lemma {:induction false} AfterSlot(fields: seq<Field>, a: seq<Rec>, b: seq<Rec>, idx: nat, k: nat)
    requires InRange(fields, a) && InRange(fields, b) && idx < |fields| && k <= |b| && forall i :: 0 <= i < |b| ==>
               b[i].idx == idx
    ensures InRange(fields, a + b)
    ensures After(fields, a + b, |a| + k) == if k == 0 then After(fields, a, |a|)
                                             else After(fields, a, |a|)[idx := b[k - 1].after]
  {
    if k == 0 {
      AfterPrefix(fields, a, b, |a|);
    } else {
      AfterSlot(fields, a, b, idx, k - 1);
    }
  }

  lemma SlotRecordsLast(idx: nat, f: Field, s: Slot)
    requires GoodSlot(f, s)
    ensures var r := SlotRecords(idx, f, s); if r == [] then s == DefaultSlot(f) else r[|r| - 1].after == s
  {
    if s.Many? && s.items != [] && !Packable(f.ltype) {
      ItemRecordsIdx(idx, f, s.items, |s.items|);
      assert s.items[..|s.items|] == s.items;
    }
  }

  /** After all records of the first `n` fields those fields hold the message's, the others their defaults. */
  lemma {:induction false} AfterAll(fields: seq<Field>, m: seq<Slot>, n: nat)
    requires n <= |fields| == |m| && forall i :: 0 <= i < |fields| ==> GoodSlot(fields[i], m[i])
    ensures var r := Records(fields, m, n); InRange(fields, r)
                                            && After(fields, r, |r|) == m[..n] + Defaults(fields)[n..]
  {
    hide GoodSlot, SlotRecords, After, Defaults, DefaultSlot, InRange, Records;
    RecordsStep(fields, m, n);
    if n == 0 {
      NothingYet(fields, Records(fields, m, 0));
      assert m[..0] + Defaults(fields)[0..] == Defaults(fields);
    } else {
      var a, b := Records(fields, m, n - 1), SlotRecords(n - 1, fields[n - 1], m[n - 1]);
      AfterAll(fields, m, n - 1);
      SlotRecordsIdx(n - 1, fields[n - 1], m[n - 1]);
      AfterSlot(fields, a, b, n - 1, |b|);
      SlotRecordsLast(n - 1, fields[n - 1], m[n - 1]);
      FillNext(m, Defaults(fields), n - 1);
      DefaultAt(fields, n - 1);
    }
  }

  lemma RecordsStep(fields: seq<Field>, m: seq<Slot>, n: nat)
    requires n <= |fields| == |m|
    ensures InRange(fields, Records(fields, m, n)) && (n == 0 ==> Records(fields, m, n) == [])
    ensures n > 0 ==> InRange(fields, Records(fields, m, n - 1))
                      && InRange(fields, SlotRecords(n - 1, fields[n - 1], m[n - 1]))
    ensures n > 0 ==> Records(fields, m, n) == Records(fields, m, n - 1) + SlotRecords(n - 1, fields[n - 1], m[n - 1])
  {
    hide SlotRecords;
    RecordsInRange(fields, m, n);
    if n > 0 {
      RecordsInRange(fields, m, n - 1);
      SlotRecordsIdx(n - 1, fields[n - 1], m[n - 1]);
    }
  }

  lemma NothingYet(fields: seq<Field>, recs: seq<Rec>)
    requires InRange(fields, recs)
    ensures After(fields, recs, 0) == Defaults(fields)
  {
  }

  lemma DefaultAt(fields: seq<Field>, i: nat)
    requires i < |fields|
    ensures Defaults(fields)[i] == DefaultSlot(fields[i])
  {
  }

  lemma FillNext(m: seq<Slot>, d: seq<Slot>, n: nat)
    requires n < |m| == |d|
    ensures (m[..n] + d[n..])[n := m[n]] == m[..n + 1] + d[n + 1..]
    ensures m[n] == d[n] ==> m[..n] + d[n..] == m[..n + 1] + d[n + 1..]
  {
  }

  /** Every record delivers its part to the slot as its predecessors left it. */
  lemma {:induction false} RecordDelivers(fields: seq<Field>, m: seq<Slot>, n: nat, k: nat)
    requires n <= |fields| == |m| && (forall i :: 0 <= i < |fields| ==> GoodSlot(fields[i], m[i]))
    requires MessageBytes(fields, m, n).Some?
    requires k < |Records(fields, m, n)|
    ensures var recs := Records(fields, m, n);
            InRange(fields, recs)
            && Delivers(fields[recs[k].idx], recs[k].wireType, recs[k].payload, After(fields, recs, k)[recs[k].idx],
                        recs[k].after)
  {
    hide GoodSlot, Delivers, SlotRecords, After, Defaults, DefaultSlot, SlotBytes;
    var a, b := Records(fields, m, n - 1), SlotRecords(n - 1, fields[n - 1], m[n - 1]);
    RecordsInRange(fields, m, n);
    RecordsInRange(fields, m, n - 1);
    SlotRecordsIdx(n - 1, fields[n - 1], m[n - 1]);
    if k < |a| {
      RecordDelivers(fields, m, n - 1, k);
      AfterPrefix(fields, a, b, k);
    } else {
      AfterAll(fields, m, n - 1);
      AfterSlot(fields, a, b, n - 1, k - |a|);
      DefaultAt(fields, n - 1);
      assert (m[..n - 1] + Defaults(fields)[n - 1..])[n - 1] == Defaults(fields)[n - 1];
      SlotDelivers(n - 1, fields[n - 1], m[n - 1], k - |a|);
    }
  }

  lemma SlotDelivers(idx: nat, f: Field, s: Slot, c: nat)
    requires GoodSlot(f, s) && c < |SlotRecords(idx, f, s)| && SlotBytes(f, s).Some?
    ensures var r := SlotRecords(idx, f, s);
            Delivers(f, r[c].wireType, r[c].payload, if c == 0 then DefaultSlot(f) else r[c - 1].after, r[c].after)
  {
    hide Good;
    if s.Many? && !Packable(f.ltype) {
      ItemRecordsIdx(idx, f, s.items, |s.items|);
      assert s.items[..c + 1][..c] == s.items[..c];
      ItemEncodes(f, s.items, |s.items|, c);
    }
  }

  lemma {:induction false} ItemEncodes(f: Field, items: seq<Value>, k: nat, c: nat)
    requires c < k <= |items| && UnpackedBytes(f, items, k).Some?
    ensures ScalarBytes(f, items[c]).Some?
  {
    if c < k - 1 {
      ItemEncodes(f, items, k - 1, c);
    }
  }

  /** A union member the message does not set is never touched. */
  lemma {:induction false} UnsetStays(fields: seq<Field>, m: seq<Slot>, n: nat, k: nat, j: nat)
    requires n <= |fields| == |m| && j < |fields| && fields[j].htype.OneOf? && m[j] == Choice(None)
    requires k <= |Records(fields, m, n)|
    ensures var recs := Records(fields, m, n); InRange(fields, recs) && After(fields, recs, k)[j] == Choice(None)
  {
    hide SlotRecords, Records, Defaults;
    RecordsInRange(fields, m, n);
    if k == 0 {
      DefaultAt(fields, j);
    } else {
      UnsetStays(fields, m, n, k - 1, j);
      RecordOwner(fields, m, n, k - 1);
    }
  }

  lemma UnsetHasNone(idx: nat, f: Field)
    ensures SlotRecords(idx, f, Choice(None)) == []
  {
  }

  lemma {:induction false} RecordOwner(fields: seq<Field>, m: seq<Slot>, n: nat, k: nat)
    requires n <= |fields| == |m| && k < |Records(fields, m, n)|
    ensures var r := Records(fields, m, n)[k]; r.idx < n && m[r.idx] != Choice(None)
  {
    hide SlotRecords;
    var a, b := Records(fields, m, n - 1), SlotRecords(n - 1, fields[n - 1], m[n - 1]);
    if k < |a| {
      RecordOwner(fields, m, n - 1, k);
      assert Records(fields, m, n)[k] == a[k];
    } else {
      SlotRecordsIdx(n - 1, fields[n - 1], m[n - 1]);
      UnsetHasNone(n - 1, fields[n - 1]);
      assert Records(fields, m, n)[k] == b[k - |a|];
    }
  }
}
