/**
 What survives a crash: the log cut off at any byte, read back and replayed
 (db/log_reader.cc, db/db_impl.cc RecoverLogFile).
 */
module LogRecovery {
  import opened Wrappers
  import opened Keys
  import opened Coding
  import opened LogFormat
  import opened LogReader
  import opened WriteBatches
  import LogWriter

  // ---------- the fragments of a list of records ----------

  /** Cutting a record loses nothing, marks its ends and fits every fragment into its block. */
  lemma {:induction false} CutWhole(offset: nat, data: Bytes, begin: bool)
    ensures var c := Cut(offset, data, begin);
            && DataOf(c, 0, |c|) == data
            && (forall i :: 0 <= i < |c| ==> c[i].kind == Kind(begin && i == 0, i == |c| - 1))
            && (forall i :: 0 <= i < |c| ==> PlacedAt(offset + Offset(c, i), c[i]))
    decreases |data|, if Room(offset) == 0 then 1 else 0
  {
    hide PlacedAt, PadAt, Room, Cut, Offset, DataOf;
    LogWriter.CutStep(offset, data, begin);
    var n := if |data| < Room(offset) then |data| else Room(offset);
    var f := Frag(PadAt(offset), Kind(begin, n == |data|), data[..n]);
    if n == |data| {
      OneFrag(f);
      assert [f] + [] == [f] && data[..n] == data;
    } else {
      var rest := Cut(offset + f.Size(), data[n..], false);
      CutWhole(offset + f.Size(), data[n..], false);
      ConsData(f, rest, |rest|);
      ConsPlaced(offset, f, rest);
    }
  }

  lemma ConsPlaced(offset: nat, f: Frag, rest: seq<Frag>)
    requires PlacedAt(offset, f) && forall i :: 0 <= i < |rest| ==>
               PlacedAt(offset + f.Size() + Offset(rest, i), rest[i])
    ensures forall i :: 0 <= i < |rest| + 1 ==> PlacedAt(offset + Offset([f] + rest, i), ([f] + rest)[i])
  {
    hide PlacedAt, Offset;
    var all := [f] + rest;
    forall i | 0 <= i < |all| ensures PlacedAt(offset + Offset(all, i), all[i]) {
      if i > 0 { ConsOffset(f, rest, i - 1); } else { StartsAtZero(all); }
    }
  }

  lemma OneFrag(f: Frag)
    ensures DataOf([f], 0, 1) == f.data && Offset([f], 0) == 0
  {
  }

  lemma {:induction false} ConsOffset(f: Frag, rest: seq<Frag>, i: nat)
    requires i <= |rest|
    ensures Offset([f] + rest, i + 1) == f.Size() + Offset(rest, i)
  {
    if i > 0 {
      ConsOffset(f, rest, i - 1);
    } else {
      assert Offset([f] + rest, 0) == 0;
    }
  }

  lemma {:induction false} ConsData(f: Frag, rest: seq<Frag>, i: nat)
    requires i <= |rest|
    ensures DataOf([f] + rest, 0, i + 1) == f.data + DataOf(rest, 0, i)
  {
    if i > 0 {
      ConsData(f, rest, i - 1);
    } else {
      assert DataOf([f] + rest, 0, 0) == [];
    }
  }

  lemma {:induction false} AppendOffset(a: seq<Frag>, b: seq<Frag>, i: nat)
    requires i <= |b|
    ensures Offset(a + b, |a| + i) == Sizes(a) + Offset(b, i)
  {
    if i > 0 {
      AppendOffset(a, b, i - 1);
    } else {
      OffsetPrefix(a + b, |a|, |a|);
      assert (a + b)[..|a|] == a;
    }
  }

  lemma {:induction false} AppendData(a: seq<Frag>, b: seq<Frag>, i: nat)
    requires i <= |b|
    ensures DataOf(a + b, |a|, |a| + i) == DataOf(b, 0, i)
  {
    if i > 0 {
      AppendData(a, b, i - 1);
    }
  }

  /** The whole log is well placed, and record `j` is found, whole, between its bounds. */
  lemma {:induction false} RecordAt(records: seq<Bytes>, j: nat)
    requires j < |records|
    ensures var frags := Fragments(records);
            && Bound(records, j) < Bound(records, j + 1) <= |frags|
            && WholeRecord(frags, Bound(records, j), Bound(records, j + 1))
            && DataOf(frags, Bound(records, j), Bound(records, j + 1)) == records[j]
  {
    hide Cut, Kind, Offset;
    var n := |records| - 1;
    var init := records[..n];
    var before := Fragments(init);
    var cut := Cut(Sizes(before), records[n], true);
    if j == n {
      CutWhole(Sizes(before), records[n], true);
      AppendData(before, cut, |cut|);
      assert records[..n + 1] == records;
    } else {
      RecordAt(init, j);
      assert init[..j] == records[..j] && init[..j + 1] == records[..j + 1];
      PrefixData(before, cut, Bound(records, j), Bound(records, j + 1));
    }
  }

  lemma {:induction false} PrefixData(a: seq<Frag>, b: seq<Frag>, k: nat, m: nat)
    requires k <= m <= |a|
    ensures DataOf(a + b, k, m) == DataOf(a, k, m)
  {
    if k < m {
      PrefixData(a, b, k, m - 1);
    }
  }

  lemma {:induction false} LogIsPlaced(records: seq<Bytes>)
    ensures Placed(Fragments(records)) && AllEncodable(Fragments(records))
  {
    hide Cut, PlacedAt, Offset;
    if records != [] {
      var before := Fragments(records[..|records| - 1]);
      var cut := Cut(Sizes(before), records[|records| - 1], true);
      LogIsPlaced(records[..|records| - 1]);
      CutWhole(Sizes(before), records[|records| - 1], true);
      var all := before + cut;
      forall k | 0 <= k < |all| ensures PlacedAt(Offset(all, k), all[k]) {
        if k < |before| {
          OffsetPrefix(all, |before|, k);
          assert all[..|before|] == before;
        } else {
          AppendOffset(before, cut, k - |before|);
        }
      }
    }
    PlacedEncodable(Fragments(records));
  }

  // ---------- writing, with and without a restart ----------

  function LogOf(crc: Checksum, records: seq<Bytes>): Bytes {
    LogIsPlaced(records);
    LogBytes(crc, Fragments(records))
  }

  lemma FragmentsAppend(records: seq<Bytes>, r: Bytes)
    ensures Fragments(records + [r]) == Fragments(records) + Cut(Sizes(Fragments(records)), r, true)
  {
    hide Cut, Offset;
    assert (records + [r])[..|records|] == records;
  }

  /** Writes records behind those already in the log. */
  method AddAll(w: LogWriter.Writer, ghost before: seq<Bytes>, records: seq<Bytes>)
    requires w.Valid() && w.frags == Fragments(before)
    modifies w
    ensures w.Valid() && w.frags == Fragments(before + records) && w.dest == LogOf(w.crc, before + records)
  {
    hide Cut, LogBytes, Placed, AllEncodable, Fragments, LogWriter.InBlock, Offset;
    assert before + [] == before;
    var i := 0;
    while i < |records|
      invariant 0 <= i <= |records| && w.Valid() && w.frags == Fragments(before + records[..i])
    {
      LogBytesLength(w.crc, w.frags);
      w.AddRecord(records[i]);
      FragmentsAppend(before + records[..i], records[i]);
      assert before + records[..i + 1] == before + records[..i] + [records[i]];
      i := i + 1;
    }
    assert records[..i] == records;
    LogIsPlaced(before + records);
  }

  /** A log continued by a second writer that knows only its length has the bytes one writer would have written. */
  method WriteInTwoRuns(crc: Checksum, first: seq<Bytes>, second: seq<Bytes>) returns (log: Bytes)
    ensures log == LogOf(crc, first + second)
  {
    var w := new LogWriter.Writer(crc);
    AddAll(w, [], first);
    assert [] + first == first;
    var w' := new LogWriter.Writer.Reopen(crc, w.dest, w.frags);
    AddAll(w', first, second);
    log := w'.dest;
  }

  // ---------- reading back what is left ----------

  /** The first `n` records are the ones whose last fragment lies inside the file. */
  ghost predicate Survive(records: seq<Bytes>, file: Bytes, n: nat) {
    && n <= |records| && Bound(records, n) <= |Fragments(records)|
    && Offset(Fragments(records), Bound(records, n)) <= |file|
    && (n < |records| ==> Bound(records, n + 1) <= |Fragments(records)|
                          && Offset(Fragments(records), Bound(records, n + 1)) > |file|)
  }

  lemma BoundInside(records: seq<Bytes>, j: nat)
    requires j <= |records|
    ensures Bound(records, j) <= |Fragments(records)| && (j == |records| ==> Bound(records, j) == |Fragments(records)|)
    ensures Bound(records, 0) == 0
  {
    if j < |records| {
      RecordAt(records, j);
    } else {
      assert records[..j] == records;
    }
  }

  /** Truncation at any byte: exactly the surviving records are returned and nothing is reported as corrupt. */
  method ReadAll(crc: Checksum, file: Bytes, ghost records: seq<Bytes>) returns (out: seq<Bytes>, corruptions: nat)
    requires file <= LogOf(crc, records)
    ensures corruptions == 0 && |out| <= |records| && Survive(records, file, |out|) && out == records[..|out|]
  {
    hide Fragments, Offset, LogBytes, Bound, LogReader.WholeRecord, Reading, Placed;
    LogIsPlaced(records);
    ghost var frags := Fragments(records);
    var reader := new Reader(crc, true, file);
    BoundInside(records, 0);
    StartsAtZero(frags);
    out := [];
    while true
      invariant reader.Ok() && fresh(reader) && reader.crc == crc && reader.file == file && reader.corruptions == 0
      invariant |out| <= |records| && out == records[..|out|]
      invariant Bound(records, |out|) <= |frags| && reader.At(frags, Bound(records, |out|))
      decreases |file| - reader.Abs()
    {
      ghost var j := |out|;
      ghost var k := Bound(records, j);
      ghost var m := k;
      BoundInside(records, j);
      if j < |records| {
        RecordAt(records, j);
        m := Bound(records, j + 1);
      }
      ReadingBounds(file, reader.pos, reader.buffer, reader.eof);
      var ok, record := reader.ReadRecord(frags, k, m);
      if !ok { break; }
      ReadingBounds(file, reader.pos, reader.buffer, reader.eof);
      out := out + [record];
    }
    corruptions := reader.corruptions;
  }

  lemma StartsAtZero(frags: seq<Frag>)
    ensures Offset(frags, 0) == 0
  {
  }

  // ---------- replaying ----------

  /** A batch as it was logged. */
  datatype Logged = Logged(seqno: nat, ops: seq<BatchOp>)

  predicate Fits(b: Logged) {
    1 <= b.seqno < TWO_64 && |b.ops| < TWO_32 && forall i :: 0 <= i < |b.ops| ==> OpFits(b.ops[i])
  }

  function Reps(bs: seq<Logged>): (r: seq<Bytes>)
    ensures |r| == |bs|
  {
    seq(|bs|, i requires 0 <= i < |bs| => Rep(bs[i].seqno, bs[i].ops))
  }

  /** The versions the batches store, in order. */
  function Stored(bs: seq<Logged>): seq<Entry> {
    if bs == [] then [] else
      var b := bs[|bs| - 1];
      Stored(bs[..|bs| - 1]) + EntriesFrom(b.ops, b.seqno)
  }

  /** The highest sequence number among the batches, at least `low`. */
  function MaxSequence(bs: seq<Logged>, low: nat): nat {
    if bs == [] then low else
      var before, b := MaxSequence(bs[..|bs| - 1], low), bs[|bs| - 1];
      if b.seqno + |b.ops| > before + 1 then b.seqno + |b.ops| - 1 else before
  }

  /**
   Replays the records of one log file; memtables that grow too large are written out on the way.
   What is stored afterwards is what the surviving batches stored, each exactly once and in order.
   */
  method RecoverLogFile(crc: Checksum, file: Bytes, tooLarge: seq<Entry> -> bool, low: nat, ghost bs: seq<Logged>)
    returns (ok: bool, tables: seq<seq<Entry>>, mem: seq<Entry>, maxSequence: nat, ghost n: nat)
    requires file <= LogOf(crc, Reps(bs)) && forall i :: 0 <= i < |bs| ==> Fits(bs[i])
    ensures ok && n <= |bs| && Survive(Reps(bs), file, n)
    ensures Concat(tables) + mem == Stored(bs[..n]) && maxSequence == MaxSequence(bs[..n], low)
  {
    hide Rep, ReadOps, Sequence, Count, EntriesFrom, Survive, Fragments, LogBytes;
    var records, corruptions := ReadAll(crc, file, Reps(bs));
    n := |records|;
    ok, tables, mem, maxSequence := true, [], [], low;
    var i := 0;
    while i < |records|
      invariant 0 <= i <= |records| && ok
      invariant Concat(tables) + mem == Stored(bs[..i]) && maxSequence == MaxSequence(bs[..i], low)
    {
      ghost var b := bs[i];
      assert records[i] == Rep(b.seqno, b.ops) && Fits(b);
      ReplayIsExact(b.seqno, b.ops);
      ghost var was := mem;
      ok, mem := InsertInto(records[i], mem);
      if !ok { break; }
      StoredStep(bs, i, low);
      assert Concat(tables) + (was + EntriesFrom(b.ops, b.seqno)) == Concat(tables) + was + EntriesFrom(b.ops, b.seqno);
      var lastSeq := Sequence(records[i]) + Count(records[i]) - 1;
      if lastSeq > maxSequence {
        maxSequence := lastSeq;
      }
      if tooLarge(mem) {
        JoinedStep(tables, mem);
        tables := tables + [mem];
        mem := [];
      }
      i := i + 1;
    }
  }

  lemma StoredStep(bs: seq<Logged>, i: nat, low: nat)
    requires i < |bs| && bs[i].seqno >= 1
    ensures Stored(bs[..i + 1]) == Stored(bs[..i]) + EntriesFrom(bs[i].ops, bs[i].seqno)
    ensures var before, last := MaxSequence(bs[..i], low), bs[i].seqno + |bs[i].ops| - 1;
            MaxSequence(bs[..i + 1], low) == if last > before then last else before
  {
    hide EntriesFrom;
    assert bs[..i + 1][..i] == bs[..i];
  }

  lemma JoinedStep(tables: seq<seq<Entry>>, mem: seq<Entry>)
    ensures Concat(tables + [mem]) == Concat(tables) + mem && Concat(tables + [mem]) + [] == Concat(tables) + mem
  {
    assert (tables + [mem])[..|tables|] == tables;
  }

  /** Batches numbered without gaps from one, as group commit numbers them. */
  ghost predicate Consecutive(bs: seq<Logged>) {
    forall i :: 0 <= i < |bs| ==> bs[i].seqno == |Stored(bs[..i])| + 1
  }

  /** Then recovery ends with exactly the versions 1 to max_sequence: a prefix of the history, no batch torn apart. */
  lemma {:induction false} RecoversAPrefix(bs: seq<Logged>, n: nat)
    requires Consecutive(bs) && n <= |bs|
    ensures MaxSequence(bs[..n], 0) == |Stored(bs[..n])|
    ensures forall k :: 0 <= k < |Stored(bs[..n])| ==> Stored(bs[..n])[k].seqno == k + 1
  {
    hide Stored, MaxSequence;
    if n == 0 {
      NothingStored(bs, 0);
    } else {
      RecoversAPrefix(bs, n - 1);
      assert bs[n - 1].seqno == |Stored(bs[..n - 1])| + 1;
      StoredStep(bs, n - 1, 0);
    }
  }

  lemma NothingStored(bs: seq<Logged>, low: nat)
    ensures Stored(bs[..0]) == [] && MaxSequence(bs[..0], low) == low
  {
  }
}
