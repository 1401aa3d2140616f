/**
 Opening a database that crashed (db/db_impl.cc, DB::Open, Recover,
 RecoverLogFile). The descriptor log gives back the table files; what the live
 logs still hold is replayed into level-0 tables. Logs are not reused.
 */
module CrashRecovery {
  import opened Wrappers
  import opened Keys
  import opened Mvcc
  import opened LogFormat
  import opened Versions
  import opened Manifest
  import opened Lsm
  import opened Database
  import opened Durability
  import opened DbImpl
  import WriteBatches
  import LogRecovery

  // ---------- what a log stores ----------

  function WritesOf(ops: seq<WriteBatches.BatchOp>): History {
    seq(|ops|,
        i requires 0 <= i < |ops| => Write(Rank(ops[i].key), if ops[i].PutOp? then Put(ops[i].value) else Delete))
  }

  /** Writes as stored versions, the first numbered `first + 1`. */
  function Numbered(h: History, first: nat): seq<Entry> {
    seq(|h|, i requires 0 <= i < |h| => Entry(h[i].key, first + i + 1, h[i].op))
  }

  /** The records that these batches were logged as, after `first` earlier writes. */
  ghost predicate Records(bs: seq<LogRecovery.Logged>, batches: seq<History>, first: nat) {
    && |bs| == |batches|
    && forall i :: 0 <= i < |bs| ==> RecordsAt(bs[i], batches, first, i)
  }

  ghost predicate RecordsAt(b: LogRecovery.Logged, batches: seq<History>, first: nat, i: nat)
    requires i < |batches|
  {
    LogRecovery.Fits(b) && WritesOf(b.ops) == batches[i] && b.seqno == first + |Concat(batches[..i])| + 1
  }

  lemma EntriesAreNumbered(ops: seq<WriteBatches.BatchOp>, first: nat)
    ensures WriteBatches.EntriesFrom(ops, first + 1) == Numbered(WritesOf(ops), first)
  {
  }

  lemma NumberedConcat(a: History, b: History, first: nat)
    ensures Numbered(a + b, first) == Numbered(a, first) + Numbered(b, first + |a|)
  {
  }

  lemma ConcatStep<T>(parts: seq<seq<T>>, n: nat)
    requires n < |parts|
    ensures Concat(parts[..n + 1]) == Concat(parts[..n]) + parts[n]
  {
    assert parts[..n + 1][..n] == parts[..n];
  }

  lemma ConcatWhole<T>(parts: seq<seq<T>>, n: nat)
    requires n <= |parts|
    ensures Concat(parts[..n]) <= Concat(parts)
    decreases |parts| - n
  {
    if n == |parts| {
      assert parts[..n] == parts;
    } else {
      ConcatStep(parts, n);
      ConcatWhole(parts, n + 1);
    }
  }

  /** The first `n` records of a log store exactly their batches, and the last of them carries the highest number. */
  lemma {:induction false} LogStores(bs: seq<LogRecovery.Logged>, batches: seq<History>, first: nat, n: nat, low: nat)
    requires Records(bs, batches, first) && n <= |bs|
    ensures LogRecovery.Stored(bs[..n]) == Numbered(Concat(batches[..n]), first)
    ensures LogRecovery.MaxSequence(bs[..n], low) ==
            var last := first + |Concat(batches[..n])|; if n > 0 && low < last then last else low
  {
    hide WritesOf, Numbered, LogRecovery.Stored, LogRecovery.MaxSequence, WriteBatches.EntriesFrom, LogRecovery.Fits;
    if n == 0 {
      LogRecovery.NothingStored(bs, low);
      assert Numbered([], first) == [] by { NothingNumbered(first); }
    } else {
      LogStores(bs, batches, first, n - 1, low);
      var b := bs[n - 1];
      assert RecordsAt(b, batches, first, n - 1);
      LogRecovery.StoredStep(bs, n - 1, low);
      ConcatStep(batches, n - 1);
      EntriesAreNumbered(b.ops, b.seqno - 1);
      NumberedConcat(Concat(batches[..n - 1]), batches[n - 1], first);
      SameLength(b.ops);
    }
  }

  lemma NothingNumbered(first: nat)
    ensures Numbered([], first) == []
  {
  }

  lemma SameLength(ops: seq<WriteBatches.BatchOp>)
    ensures |WritesOf(ops)| == |ops|
  {
  }

  // ---------- level-0 tables ----------

  predicate Increasing(es: seq<Entry>) { forall i, j :: 0 <= i < j < |es| ==> es[i].seqno < es[j].seqno }

  /** The memtable that replaying leaves, in key order. */
  function Memtable(es: seq<Entry>): seq<Entry> {
    if es == [] then [] else Insert(Memtable(es[..|es| - 1]), es[|es| - 1])
  }

  lemma {:induction false} MemtableIsSorted(es: seq<Entry>)
    requires Increasing(es)
    ensures Sorted(Memtable(es)) && Elems(Memtable(es)) == Elems(es)
  {
    hide Insert, Sorted;
    if es == [] {
      EmptySorted();
    } else {
      var init, last := es[..|es| - 1], es[|es| - 1];
      MemtableIsSorted(init);
      assert es == init + [last];
      forall f | f in Memtable(init) ensures f.seqno < last.seqno {
        assert f in Elems(init);
      }
      InsertSorted(Memtable(init), last);
    }
  }

  lemma EmptySorted()
    ensures Sorted([])
  {
  }

  ghost predicate Older(f: File, g: File) {
    forall e, x :: e in f.entries && x in g.entries ==> e.seqno < x.seqno
  }

  /** Tables numbered upwards that hold `es`, older versions first. */
  ghost predicate NewTables(files: seq<File>, es: seq<Entry>, from: nat, upto: nat) {
    && (forall i :: 0 <= i < |files| ==> ValidFile(files[i]) && from <= files[i].number < upto)
    && (forall i, j :: 0 <= i < j < |files| ==> files[i].number < files[j].number && Older(files[i], files[j]))
    && forall e :: InFiles(files, e) <==> e in es
  }

  lemma TableAppended(files: seq<File>, es: seq<Entry>, from: nat, upto: nat, f: File, more: seq<Entry>)
    requires NewTables(files, es, from, upto) && ValidFile(f) && from <= upto <= f.number
    requires Elems(f.entries) == Elems(more) && Increasing(es + more)
    ensures NewTables(files + [f], es + more, from, f.number + 1)
  {
    hide ValidFile;
    var all := files + [f];
    forall i | 0 <= i < |files| ensures Older(files[i], f) {
      forall e, x | e in files[i].entries && x in f.entries ensures e.seqno < x.seqno {
        assert InFiles(files, e) && x in Elems(more);
        InOrderAcross(es, more, e, x);
      }
    }
    forall e ensures InFiles(all, e) <==> e in es + more {
      assert e in f.entries <==> e in Elems(f.entries);
      assert forall g :: g in all <==> g in files || g == f;
    }
  }

  lemma InOrderAcross(a: seq<Entry>, b: seq<Entry>, e: Entry, x: Entry)
    requires Increasing(a + b) && e in a && x in b
    ensures e.seqno < x.seqno
  {
    var i :| 0 <= i < |a| && a[i] == e;
    var j :| 0 <= j < |b| && b[j] == x;
    assert (a + b)[i] == e && (a + b)[|a| + j] == x;
  }

  lemma TableJoined(files: seq<File>, es: seq<Entry>, from: nat, upto: nat, more: seq<File>, after: seq<Entry>,
                    upto': nat)
    requires NewTables(files, es, from, upto) && NewTables(more, after, upto, upto') && Increasing(es + after)
    requires from <= upto <= upto'
    ensures NewTables(files + more, es + after, from, upto')
  {
    hide ValidFile;
    var all := files + more;
    forall i, j | 0 <= i < |files| && 0 <= j < |more| ensures Older(files[i], more[j]) {
      forall e, x | e in files[i].entries && x in more[j].entries ensures e.seqno < x.seqno {
        assert InFiles(files, e) && InFiles(more, x);
        InOrderAcross(es, after, e, x);
      }
    }
    forall e ensures InFiles(all, e) <==> e in es + after {
      assert forall g :: g in all <==> g in files || g in more;
    }
  }

  /** The version with all of the tables in level 0. */
  ghost predicate TablesAdded(levels: seq<seq<File>>, files: seq<File>, levels': seq<seq<File>>) {
    && |levels| == |levels'| == NUM_LEVELS
    && forall l :: 0 <= l < NUM_LEVELS ==>
         Lists(levels'[l], if l == 0 then FileSet(levels[0]) + FileSet(files) else FileSet(levels[l]))
  }

  lemma TablesAddedMembers(levels: seq<seq<File>>, files: seq<File>, levels': seq<seq<File>>)
    requires TablesAdded(levels, files, levels')
    ensures forall g :: g in levels'[0] <==> g in levels[0] || g in files
    ensures forall l, g :: 1 <= l < NUM_LEVELS ==> (g in levels'[l] <==> g in levels[l])
  {
    forall l, g | 0 <= l < NUM_LEVELS ensures g in FileSet(levels'[l]) <==> g in levels'[l] {}
    forall g ensures g in levels'[0] <==> g in levels[0] || g in files {
      assert g in FileSet(levels'[0]) <==> g in FileSet(levels[0]) + FileSet(files);
    }
    forall l, g | 1 <= l < NUM_LEVELS ensures g in levels'[l] <==> g in levels[l] {
      assert g in FileSet(levels'[l]) <==> g in FileSet(levels[l]);
    }
  }

  /** Replayed tables go on top of a tree that holds only older versions. */
  lemma TablesKeepTree(levels: seq<seq<File>>, files: seq<File>, es: seq<Entry>, from: nat, upto: nat,
                       levels': seq<seq<File>>, flushed: nat)
    requires TreeInv(levels) && TablesAdded(levels, files, levels') && NewTables(files, es, from, upto)
    requires forall g :: g in levels[0] ==> g.number < from
    requires forall e :: e in StoredFrom(levels, 0) ==> e.seqno <= flushed
    requires forall e :: e in es ==> e.seqno > flushed
    ensures TreeInv(levels') && StoredFrom(levels', 0) == StoredFrom(levels, 0) + Elems(es)
  {
    TablesAddedMembers(levels, files, levels');
    TablesAreNewer(levels, files, es, from, upto, flushed);
    forall l | 1 <= l < NUM_LEVELS ensures Disjoint(levels'[l]) {
      DisjointIsSeparated(levels[l]);
      SeparatedIsDisjoint(levels'[l]);
    }
    forall f, g | f in levels'[0] && g in levels'[0] && f.number > g.number ensures Newer(f, g) {
      if f in files && g in files {
        TablesInOrder(files, es, from, upto, g, f);
      }
    }
    forall f, g | f in files && g in files && f.number == g.number ensures f == g {
      TablesInOrder(files, es, from, upto, g, f);
    }
    forall f | f in files ensures from <= f.number {
      var i :| 0 <= i < |files| && files[i] == f;
    }
    StrictlyNumbered(levels'[0]);
    TablesStored(levels, files, es, from, upto, levels');
  }

  lemma TablesAreNewer(levels: seq<seq<File>>, files: seq<File>, es: seq<Entry>, from: nat, upto: nat, flushed: nat)
    requires NewTables(files, es, from, upto)
    requires forall e :: e in StoredFrom(levels, 0) ==> e.seqno <= flushed
    requires forall e :: e in es ==> e.seqno > flushed
    ensures forall f, l, g :: f in files && 0 <= l < |levels| && g in levels[l] ==> Newer(f, g)
  {
    forall f | f in files ensures forall l, g :: 0 <= l < |levels| && g in levels[l] ==> Newer(f, g) {
      forall e | e in f.entries ensures e.seqno > flushed { assert InFiles(files, e); }
      NewFileIsNewer(levels, f);
    }
  }

  lemma TablesInOrder(files: seq<File>, es: seq<Entry>, from: nat, upto: nat, f: File, g: File)
    requires NewTables(files, es, from, upto) && f in files && g in files && f.number <= g.number
    ensures f == g || Newer(g, f)
    ensures f.number == g.number ==> f == g
  {
    var i :| 0 <= i < |files| && files[i] == f;
    var j :| 0 <= j < |files| && files[j] == g;
    if i < j { assert Older(f, g); }
  }

  lemma TablesStored(levels: seq<seq<File>>, files: seq<File>, es: seq<Entry>, from: nat, upto: nat,
                     levels': seq<seq<File>>)
    requires TablesAdded(levels, files, levels') && NewTables(files, es, from, upto)
    ensures StoredFrom(levels', 0) == StoredFrom(levels, 0) + Elems(es)
  {
    hide Lists;
    TablesAddedMembers(levels, files, levels');
    forall e ensures InLevels(levels', 0, e) <==> InLevels(levels, 0, e) || e in es {
      if InLevels(levels, 0, e) {
        var l :| 0 <= l < |levels| && InFiles(levels[l], e);
        var g :| g in levels[l] && e in g.entries;
        assert g in levels'[l] && InFiles(levels'[l], e);
      }
      if e in es {
        assert InFiles(files, e);
        var f :| f in files && e in f.entries;
        assert f in levels'[0] && InFiles(levels'[0], e);
      }
      if InLevels(levels', 0, e) {
        var l :| 0 <= l < |levels'| && InFiles(levels'[l], e);
        var g :| g in levels'[l] && e in g.entries;
        if g in levels[l] { assert InFiles(levels[l], e); } else { assert InFiles(files, e); }
      }
    }
  }

  // ---------- what survives ----------

  /** A key that has no value. */
  function AbsentKey(h: History): (key: UserKey)
    ensures forall w :: w in h ==> w.key < key
  {
    if h == [] then 0.0
    else
      var rest, last := AbsentKey(h[..|h| - 1]), h[|h| - 1];
      assert h == h[..|h| - 1] + [last];
      if last.key < rest then rest else last.key + 1.0
  }

  lemma {:induction false} AbsentHasNoValue(h: History, key: UserKey)
    requires forall w :: w in h ==> w.key < key
    ensures ValueAfter(h, key) == None
  {
    if h != [] {
      AbsentHasNoValue(h[..|h| - 1], key);
    }
  }

  /**
   The writes in the files, then those read from the older log, then those from the
   newer one, which begins after `switched` writes.
   */
  datatype Survivors = Survivors(flushed: nat, older: nat, switched: nat, newer: nat) {
    predicate Has(i: nat) { i < flushed + older || switched <= i < switched + newer }

    /** Nothing survives behind a lost write. */
    predicate NoGap() { flushed + older == switched || newer == 0 }

    function Length(): nat { if newer == 0 then flushed + older else switched + newer }

    ghost predicate IsPrefix(p: nat) { forall i: nat :: Has(i) <==> i < p }

    /** Where in the history the `k`-th write from the logs is. */
    function Position(k: nat): nat { if k < older then flushed + k else switched + (k - older) }
  }

  /** The first `n` writes with those blanked out that did not survive. */
  ghost function Surviving(h: History, c: Survivors, n: nat): (r: History)
    requires n <= |h|
    ensures |r| == n
  {
    if n == 0 then []
    else
      var before := Surviving(h, c, n - 1);
      before + [if c.Has(n - 1) then h[n - 1] else Write(AbsentKey(before), Delete)]
  }

  /** Survivors keep their number, and the others are unnoticeable. */
  lemma {:induction false} SurvivingMeans(h: History, c: Survivors, n: nat)
    requires n <= |h|
    ensures forall i :: 0 <= i < n && c.Has(i) ==> Surviving(h, c, n)[i] == h[i]
    ensures forall i :: 0 <= i < n && !c.Has(i) ==> IsBlank(Surviving(h, c, n), i)
  {
    hide ValueAfter, AbsentKey, Surviving, IsBlank;
    if n > 0 {
      var before, all := Surviving(h, c, n - 1), Surviving(h, c, n);
      SurvivingMeans(h, c, n - 1);
      SurvivingStep(h, c, n);
      forall i | 0 <= i < n && !c.Has(i) ensures IsBlank(all, i) {
        if i < n - 1 {
          BlankInPrefix(before, all, i);
        }
      }
    }
  }

  lemma SurvivingStep(h: History, c: Survivors, n: nat)
    requires 0 < n <= |h|
    ensures Surviving(h, c, n)[..n - 1] == Surviving(h, c, n - 1)
    ensures if c.Has(n - 1) then Surviving(h, c, n)[n - 1] == h[n - 1] else IsBlank(Surviving(h, c, n), n - 1)
  {
    hide ValueAfter;
    var before := Surviving(h, c, n - 1);
    AbsentHasNoValue(before, AbsentKey(before));
    assert Surviving(h, c, n)[..n - 1] == before;
  }

  /** Every key has the same value. */
  ghost predicate ReadsAlike(h: History, h': History) {
    forall key :: ValueAfter(h, key) == ValueAfter(h', key)
  }

  /** Without a gap every read is a read of a prefix of the history. */
  lemma {:induction false} SurvivorsArePrefix(h: History, c: Survivors, n: nat, key: UserKey, snapshot: nat)
    requires snapshot <= n <= |h| && c.NoGap() && c.flushed + c.older <= c.switched && c.Length() <= |h|
    ensures ValueAfter(Surviving(h, c, n)[..snapshot], key) == ValueAfter(h[..Min(snapshot, c.Length())], key)
  {
    hide ValueAfter, Surviving, IsBlank;
    var all := Surviving(h, c, n);
    SurvivingMeans(h, c, n);
    if snapshot <= c.Length() {
      assert all[..snapshot] == h[..snapshot];
    } else {
      SurvivorsArePrefix(h, c, n, key, snapshot - 1);
      BlankChangesNothing(all, snapshot - 1, key);
    }
  }

  /** What survives is a prefix of the history exactly if there is no gap. */
  lemma PrefixExact(c: Survivors)
    requires c.flushed + c.older <= c.switched
    ensures c.NoGap() <==> exists p: nat :: c.IsPrefix(p)
  {
    if c.NoGap() {
      assert c.IsPrefix(c.Length());
    } else {
      forall p: nat ensures !c.IsPrefix(p) {
        assert c.Has(c.switched) && !c.Has(c.flushed + c.older);
      }
    }
  }

  /** With a gap the result need not read like any prefix: here the second of two writes survives alone. */
  lemma GapIsSeen(value: Bytes)
    ensures !SECOND_ALONE.NoGap()
    ensures forall p: nat :: p <= 2 ==> !ReadsAlike(Surviving(TwoWrites(value), SECOND_ALONE, 2), TwoWrites(value)[..p])
  {
    hide AbsentKey, Surviving;
    var h, c := TwoWrites(value), SECOND_ALONE;
    var all := Surviving(h, c, 2);
    SurvivingMeans(h, c, 2);
    assert !c.Has(0) && IsBlank(all, 0) && c.Has(1) && all[1] == h[1];
    assert all[..1] == [all[0]] && all[..1][..0] == [];
    assert ValueAfter(all[..1], 1.0) == None;
    assert ValueAfter(all, 1.0) == None && ValueAfter(all, 2.0) == Some(value);
    forall p: nat | p <= 2 ensures !ReadsAlike(all, h[..p]) {
      if p == 2 {
        assert h[..2] == h && h[..1] == [h[0]];
        assert ValueAfter(h[..2], 1.0) == Some(value);
      } else {
        assert p == 1 ==> h[..1] == [h[0]] && h[..1][..0] == [];
        assert ValueAfter(h[..p], 2.0) == None;
      }
    }
  }

  function TwoWrites(value: Bytes): History { [Write(1.0, Put(value)), Write(2.0, Put(value))] }

  const SECOND_ALONE := Survivors(0, 0, 1, 1)

  /** The versions that the logs give back. */
  function Replayed(h: History, c: Survivors): seq<Entry>
    requires c.flushed + c.older <= c.switched && c.switched + c.newer <= |h|
  {
    Numbered(h[c.flushed..c.flushed + c.older], c.flushed) + Numbered(h[c.switched..c.switched + c.newer], c.switched)
  }

  lemma ReplayedVersions(h: History, c: Survivors, n: nat)
    requires c.flushed + c.older <= c.switched && c.switched + c.newer <= |h|
    requires c.flushed <= n <= |h| && (forall i :: c.flushed <= i < |h| && c.Has(i) ==> i < n)
    ensures forall e :: e in Replayed(h, c) ==> c.flushed < e.seqno <= |h|
    ensures Elems(Replayed(h, c)) <= Since(Surviving(h, c, n), c.flushed)
    ensures forall i :: c.flushed <= i < n && c.Has(i) ==> VersionAt(Surviving(h, c, n), i) in Elems(Replayed(h, c))
  {
    hide Surviving, IsBlank, Replayed;
    SurvivingMeans(h, c, n);
    var es, all := Replayed(h, c), Surviving(h, c, n);
    ReplayedPositions(h, c);
    forall e | e in es ensures e in Since(all, c.flushed) && e.seqno <= |h| {
      var k :| 0 <= k < |es| && es[k] == e;
      assert c.Has(c.Position(k)) && all[c.Position(k)] == h[c.Position(k)];
    }
    forall i | c.flushed <= i < n && c.Has(i) ensures VersionAt(all, i) in es {
      var k := if i < c.flushed + c.older then i - c.flushed else c.older + (i - c.switched);
      assert c.Position(k) == i && es[k] == VersionAt(h, i);
    }
  }

  lemma ReplayedIncreases(h: History, c: Survivors)
    requires c.flushed + c.older <= c.switched && c.switched + c.newer <= |h|
    ensures Increasing(Replayed(h, c))
  {
    hide Replayed;
    ReplayedPositions(h, c);
  }

  lemma ReplayedPositions(h: History, c: Survivors)
    requires c.flushed + c.older <= c.switched && c.switched + c.newer <= |h|
    ensures |Replayed(h, c)| == c.older + c.newer
    ensures forall k :: 0 <= k < c.older + c.newer ==>
              c.flushed <= c.Position(k) < |h| && Replayed(h, c)[k] == VersionAt(h, c.Position(k))
  {
  }

  /** The files and what the logs give back serve the surviving writes. */
  lemma SurvivorsServed(levels: seq<seq<File>>, h: History, horizon: nat, c: Survivors, n: nat)
    requires c.flushed + c.older <= c.switched && c.switched + c.newer <= |h| < MAX_SEQUENCE_NUMBER
    requires c.flushed <= n <= |h| && (forall i :: c.flushed <= i < |h| && c.Has(i) ==> i < n)
    requires FilesServe(levels, h, horizon, c.flushed)
    ensures Faithful(StoredFrom(levels, 0) + Elems(Replayed(h, c)), Surviving(h, c, n), Min(horizon, c.flushed))
  {
    hide Surviving, IsBlank, Faithful, StoredFrom, Replayed, Since;
    var all := Surviving(h, c, n);
    SurvivingMeans(h, c, n);
    ReplayedVersions(h, c, n);
    assert all[..c.flushed] == h[..c.flushed];
    FaithfulGrows(StoredFrom(levels, 0), all, Min(horizon, c.flushed), c.flushed, Elems(Replayed(h, c)));
  }

  // ---------- opening ----------

  /** A log file, cut off wherever the crash left it. */
  datatype LogFile = LogFile(number: nat, content: Bytes)

  lemma Wider(files: seq<File>, es: seq<Entry>, from: nat, upto: nat, upto': nat)
    requires NewTables(files, es, from, upto) && upto <= upto'
    ensures NewTables(files, es, from, upto') && NewTables(files, es + [], from, upto')
  {
    assert es + [] == es;
  }

  lemma PartOfIncreasing(parts: seq<seq<Entry>>, i: nat)
    requires Increasing(Concat(parts)) && i < |parts|
    ensures Increasing(Concat(parts[..i]) + parts[i]) && Increasing(parts[i])
    ensures forall e :: e in parts[i] ==> e in Concat(parts)
  {
    hide Concat;
    ConcatStep(parts, i);
    ConcatWhole(parts, i + 1);
    var before, part := Concat(parts[..i]), parts[i];
    assert forall k :: 0 <= k < |part| ==> (before + part)[|before| + k] == part[k];
  }

  lemma TableIsValid(part: seq<Entry>, f: File)
    requires Increasing(part) && f.entries == Memtable(part) != []
    requires forall e :: e in part ==> e.seqno <= MAX_SEQUENCE_NUMBER
    ensures ValidFile(f) && Elems(f.entries) == Elems(part)
  {
    MemtableIsSorted(part);
    forall e | e in f.entries ensures e.seqno <= MAX_SEQUENCE_NUMBER { assert e in Elems(part); }
  }

  /** WriteLevel0Table for each memtable; an empty one leaves no file. */
  method WriteTables(versions: VersionSet, parts: seq<seq<Entry>>, fileSize: seq<Entry> -> nat)
    returns (files: seq<File>)
    requires versions.Valid() && Increasing(Concat(parts))
    requires forall e :: e in Concat(parts) ==> e.seqno <= MAX_SEQUENCE_NUMBER
    modifies versions`nextFileNumber
    ensures versions.Valid() && old(versions.nextFileNumber) <= versions.nextFileNumber
    ensures NewTables(files, Concat(parts), old(versions.nextFileNumber), versions.nextFileNumber)
  {
    hide NewTables, Increasing, Memtable, ValidFile, Concat, VersionSet.Valid, VersionSet.Held, VersionSet.Recorded;
    files := [];
    NoTables(parts, versions.nextFileNumber);
    for i := 0 to |parts|
      invariant versions.Valid() && old(versions.nextFileNumber) <= versions.nextFileNumber
      invariant NewTables(files, Concat(parts[..i]), old(versions.nextFileNumber), versions.nextFileNumber)
    {
      ConcatStep(parts, i);
      PartOfIncreasing(parts, i);
      var number := versions.NewFileNumber();
      var mem := Memtable(parts[i]);
      if mem != [] {
        var f := File(number, fileSize(mem), mem);
        TableIsValid(parts[i], f);
        TableAppended(files, Concat(parts[..i]), old(versions.nextFileNumber), number, f, parts[i]);
        files := files + [f];
      } else {
        NoMemtable(parts[i]);
        Wider(files, Concat(parts[..i]), old(versions.nextFileNumber), number, number + 1);
      }
    }
    assert parts[..|parts|] == parts;
  }

  lemma NoTables(parts: seq<seq<Entry>>, from: nat)
    ensures NewTables([], Concat(parts[..0]), from, from)
  {
  }

  lemma NoMemtable(es: seq<Entry>)
    requires Memtable(es) == []
    ensures es == []
  {
  }

  lemma NumberedIncreases(h: History, first: nat)
    ensures Increasing(Numbered(h, first))
    ensures forall e :: e in Numbered(h, first) ==> e.seqno <= first + |h|
  {
  }

  lemma PartsOf(tables: seq<seq<Entry>>, mem: seq<Entry>)
    ensures Concat(if mem == [] then tables else tables + [mem]) == Concat(tables) + mem
  {
    assert (tables + [mem])[..|tables|] == tables;
  }

  /** Replays one log into tables and keeps later file numbers above its own. */
  method RecoverLog(versions: VersionSet, crc: Checksum, log: LogFile, tooLarge: seq<Entry> -> bool,
                    fileSize: seq<Entry> -> nat, low: nat, ghost bs: seq<LogRecovery.Logged>,
                    ghost batches: seq<History>, ghost first: nat)
    returns (files: seq<File>, maxSequence: nat, ghost n: nat)
    requires versions.Valid() && Records(bs, batches, first) && first + |Concat(batches)| < MAX_SEQUENCE_NUMBER
    requires log.content <= LogRecovery.LogOf(crc, LogRecovery.Reps(bs))
    modifies versions`nextFileNumber
    ensures versions.Valid() && old(versions.nextFileNumber) <= versions.nextFileNumber
    ensures log.number < versions.nextFileNumber
    ensures n <= |bs| == |batches| && LogRecovery.Survive(LogRecovery.Reps(bs), log.content, n)
    ensures NewTables(files, Numbered(Concat(batches[..n]), first), old(versions.nextFileNumber),
                      versions.nextFileNumber)
    ensures maxSequence == var last := first + |Concat(batches[..n])|; if n > 0 && low < last then last else low
  {
    hide NewTables, Increasing, Numbered, Concat, VersionSet.Valid, VersionSet.Held, VersionSet.Recorded,
         LogRecovery.Survive, LogRecovery.Stored, LogRecovery.MaxSequence, LogRecovery.LogOf, LogRecovery.Reps,
         LogRecovery.Fits;
    assert forall i :: 0 <= i < |bs| ==> RecordsAt(bs[i], batches, first, i);
    var ok, tables, mem;
    ok, tables, mem, maxSequence, n := LogRecovery.RecoverLogFile(crc, log.content, tooLarge, low, bs);
    LogStores(bs, batches, first, n, low);
    ConcatWhole(batches, n);
    NumberedIncreases(Concat(batches[..n]), first);
    PartsOf(tables, mem);
    ghost var from := versions.nextFileNumber;
    files := WriteTables(versions, if mem == [] then tables else tables + [mem], fileSize);
    ghost var upto := versions.nextFileNumber;
    versions.MarkFileNumberUsed(log.number);
    Wider(files, Numbered(Concat(batches[..n]), first), from, upto, versions.nextFileNumber);
  }

  /** What of the two live logs survives, if `n` and `m` of their records do. */
  ghost function SurvivorsOf(live: DB, n: nat, m: nat): Survivors
    requires n <= |live.immLog| && m <= |live.log|
    reads live
  {
    Survivors(live.flushed, |Concat(live.immLog[..n])|, live.flushed + |Concat(live.immLog)|, |Concat(live.log[..m])|)
  }

  lemma LogsReplay(h: History, flushed: nat, immLog: seq<History>, log: seq<History>, n: nat, m: nat)
    requires flushed <= |h| && h[flushed..] == Concat(immLog) + Concat(log) && n <= |immLog| && m <= |log|
    ensures var a, b, switched := |Concat(immLog[..n])|, |Concat(log[..m])|, flushed + |Concat(immLog)|;
            && flushed + a <= switched && switched + b <= |h| == switched + |Concat(log)|
            && h[flushed..flushed + a] == Concat(immLog[..n]) && h[switched..switched + b] == Concat(log[..m])
  {
    hide Concat;
    ConcatWhole(immLog, n);
    ConcatWhole(log, m);
    var rest, switched := h[flushed..], flushed + |Concat(immLog)|;
    var a, b := |Concat(immLog[..n])|, |Concat(log[..m])|;
    assert h[flushed..flushed + a] == rest[..a] == Concat(immLog)[..a];
    assert h[switched..switched + b] == rest[|Concat(immLog)|..][..b] == Concat(log)[..b];
  }

  /** What a database that can be recovered holds on disk. */
  lemma LiveFacts(live: DB)
    requires live.Valid() && live.Durable()
    ensures live.versions.Valid() && live.versions.Recorded(live.flushed) && TreeInv(live.versions.levels)
    ensures live.flushed <= |live.history| == live.versions.lastSequence < MAX_SEQUENCE_NUMBER
    ensures live.history[live.flushed..] == Concat(live.immLog) + Concat(live.log)
    ensures FilesServe(live.versions.levels, live.history, live.horizon, live.flushed)
    ensures NumbersOk(live.versions.levels, live.Held(), live.versions.nextFileNumber)
    ensures live.imm.None? ==> live.immLog == []
  {
  }

  /** Among the files still there, numbers are in order as well. */
  lemma RecoveredNumbers(levels: seq<seq<File>>, held: seq<set<nat>>, next: nat, held': seq<set<nat>>, from: nat)
    requires NumbersOk(levels, held, next) && |held'| == NUM_LEVELS
    requires forall l, n :: 0 <= l < NUM_LEVELS && n in held[l] ==> n < from
    requires forall l :: 0 <= l < NUM_LEVELS ==> held'[l] == Numbers(FileSet(levels[l]))
    ensures NumbersOk(levels, held', from)
  {
    forall l, n | 0 <= l < NUM_LEVELS && n in held'[l] ensures n < from && n in held[l] {
      var f :| f in FileSet(levels[l]) && f.number == n;
      assert f in levels[l];
    }
    forall l, f | 0 <= l < NUM_LEVELS && f in levels[l] ensures f.number in held'[l] {
      assert f in FileSet(levels[l]);
    }
  }

  lemma TablesEdit(held: seq<set<nat>>, levels: seq<seq<File>>, from: nat, files: seq<File>, es: seq<Entry>, upto: nat,
                   e: Edit)
    requires NumbersOk(levels, held, from) && NewTables(files, es, from, upto)
    requires e.added == AdditionsOf(0, files) && e.deleted == {} && e.compactPointers == []
    ensures ValidEdit(e) && forall l :: 0 <= l < NUM_LEVELS ==> FreshIn(held[l], e, l)
    ensures forall l :: AddedAt(e, l) == if l == 0 then FileSet(files) else {}
  {
    forall f | f in files ensures (0, f) in e.added && from <= f.number {
      var i :| 0 <= i < |files| && files[i] == f;
      assert e.added[i] == (0, f);
    }
    forall l | 0 <= l < NUM_LEVELS ensures FreshIn(held[l], e, l) {
      forall n | n in Numbers(AddedAt(e, l)) ensures n !in held[l] {
        var f :| f in AddedAt(e, l) && f.number == n;
      }
    }
  }

  lemma TablesInstalled(levels: seq<seq<File>>, held: seq<set<nat>>, from: nat, files: seq<File>, es: seq<Entry>,
                        upto: nat, e: Edit, levels': seq<seq<File>>, held': seq<set<nat>>, next: nat)
    requires Edited(levels, e, levels') && HeldAfter(held, e, held') && from <= upto <= next
    requires NumbersOk(levels, held, from) && NewTables(files, es, from, upto) && e.deleted == {}
    requires forall l :: AddedAt(e, l) == if l == 0 then FileSet(files) else {}
    ensures TablesAdded(levels, files, levels') && NumbersOk(levels', held', next) && Reserved(held', next, {})
  {
    hide Lists, NewTables;
    forall l | 0 <= l < NUM_LEVELS
      ensures EditLevel(FileSet(levels[l]), e, l) == if l ==
                0 then FileSet(levels[0]) + FileSet(files) else FileSet(levels[l])
    {
      assert DeletedAt(e, l) == {};
    }
    TablesAddedMembers(levels, files, levels');
    TableNumbers(files, es, from, upto);
    forall l, f | 0 <= l < NUM_LEVELS && f in levels'[l]
      ensures f in levels[l] || (l == 0 && f.number in Numbers(FileSet(files)))
    {
      if f in files { assert f in FileSet(files); }
    }
    NewNumbersOk(levels, held, from, 0, Numbers(FileSet(files)), next, levels', held');
  }

  lemma TableNumbers(files: seq<File>, es: seq<Entry>, from: nat, upto: nat)
    requires NewTables(files, es, from, upto)
    ensures forall n :: n in Numbers(FileSet(files)) ==> from <= n < upto
  {
    forall n | n in Numbers(FileSet(files)) ensures from <= n < upto {
      var f :| f in FileSet(files) && f.number == n;
      var i :| 0 <= i < |files| && files[i] == f;
    }
  }

  /** The recovered files and the replayed tables serve the surviving writes. */
  lemma ReopenedServes(levels: seq<seq<File>>, h: History, horizon: nat, c: Survivors, n: nat, files: seq<File>,
                       from: nat, upto: nat, levels': seq<seq<File>>)
    requires c.flushed + c.older <= c.switched && c.switched + c.newer <= |h| < MAX_SEQUENCE_NUMBER
    requires c.flushed <= n <= |h| && (forall i :: c.flushed <= i < |h| && c.Has(i) ==> i < n)
    requires FilesServe(levels, h, horizon, c.flushed) && TreeInv(levels)
    requires NewTables(files, Replayed(h, c), from, upto) && TablesAdded(levels, files, levels')
    requires forall g :: g in levels[0] ==> g.number < from
    ensures PlacesOrdered([], None, levels')
    ensures Faithful(Contents([], None, levels'), Surviving(h, c, n), Min(horizon, c.flushed))
  {
    hide TreeInv, NewTables, TablesAdded, Replayed, ReadsRightFrom, Surviving, StoredFrom;
    SurvivorsServed(levels, h, horizon, c, n);
    ReplayedVersions(h, c, n);
    TablesKeepTree(levels, files, Replayed(h, c), from, upto, levels', c.flushed);
    EmptySorted();
    assert Contents([], None, levels') == StoredFrom(levels', 0);
  }

  /** The live logs as a crash may leave them: each is a prefix of what the batches were logged as. */
  ghost predicate LogsLeft(live: DB, crc: Checksum, older: Option<LogFile>, newer: LogFile,
                           olderRecords: seq<LogRecovery.Logged>, newerRecords: seq<LogRecovery.Logged>)
    reads live, live.versions
  {
    && newer.number == live.logFileNumber && (older.Some? ==> older.value.number == live.versions.logNumber)
    && Records(olderRecords, live.immLog, live.flushed)
    && Records(newerRecords, live.log, live.flushed + |Concat(live.immLog)|)
    && (older.Some? <==> live.imm.Some?)
    && (older.Some? ==> older.value.content <= LogRecovery.LogOf(crc, LogRecovery.Reps(olderRecords)))
    && newer.content <= LogRecovery.LogOf(crc, LogRecovery.Reps(newerRecords))
  }

  /** The batches of which recovery finds the whole record. */
  ghost predicate RecordsFound(live: DB, older: Option<LogFile>, newer: LogFile, olderRecords: seq<LogRecovery.Logged>,
                               newerRecords: seq<LogRecovery.Logged>, n: nat, m: nat)
    reads live
  {
    && n <= |live.immLog| && m <= |live.log|
    && (older.Some? ==> LogRecovery.Survive(LogRecovery.Reps(olderRecords), older.value.content, n))
    && LogRecovery.Survive(LogRecovery.Reps(newerRecords), newer.content, m)
  }

  lemma LogsLeftParts(live: DB, crc: Checksum, older: Option<LogFile>, newer: LogFile,
                      olderRecords: seq<LogRecovery.Logged>, newerRecords: seq<LogRecovery.Logged>)
    requires LogsLeft(live, crc, older, newer, olderRecords, newerRecords)
    ensures Records(olderRecords, live.immLog, live.flushed)
    ensures Records(newerRecords, live.log, live.flushed + |Concat(live.immLog)|)
    ensures newer.number == live.logFileNumber && (older.Some? <==> live.imm.Some?)
    ensures older.Some? ==> older.value.content <= LogRecovery.LogOf(crc, LogRecovery.Reps(olderRecords))
    ensures newer.content <= LogRecovery.LogOf(crc, LogRecovery.Reps(newerRecords))
  {
  }

  lemma FoundParts(live: DB, older: Option<LogFile>, newer: LogFile, olderRecords: seq<LogRecovery.Logged>,
                   newerRecords: seq<LogRecovery.Logged>, n: nat, m: nat)
    requires n <= |live.immLog| && m <= |live.log|
    requires older.Some? ==> LogRecovery.Survive(LogRecovery.Reps(olderRecords), older.value.content, n)
    requires LogRecovery.Survive(LogRecovery.Reps(newerRecords), newer.content, m)
    ensures RecordsFound(live, older, newer, olderRecords, newerRecords, n, m)
    ensures var c := SurvivorsOf(live, n, m);
            && c.flushed == live.flushed && c.switched == live.flushed + |Concat(live.immLog)|
            && c.older == |Concat(live.immLog[..n])| && c.newer == |Concat(live.log[..m])|
  {
  }

  /** Replays the live logs, the older one first. */
  method ReplayLogs(versions: VersionSet, older: Option<LogFile>, newer: LogFile, crc: Checksum,
                    tooLarge: seq<Entry> -> bool, fileSize: seq<Entry> -> nat, ghost live: DB,
                    ghost olderRecords: seq<LogRecovery.Logged>, ghost newerRecords: seq<LogRecovery.Logged>)
    returns (files: seq<File>, maxSequence: nat, ghost n: nat, ghost m: nat)
    requires live.Valid() && live.Durable() && LogsLeft(live, crc, older, newer, olderRecords, newerRecords)
    requires versions.Valid() && versions != live.versions
    modifies versions`nextFileNumber
    ensures versions.Valid() && old(versions.nextFileNumber) <= versions.nextFileNumber
    ensures live.logFileNumber < versions.nextFileNumber
    ensures n <= |live.immLog| && m <= |live.log|
    ensures RecordsFound(live, older, newer, olderRecords, newerRecords, n, m)
    ensures var c := SurvivorsOf(live, n, m);
            && c.flushed == live.flushed && c.flushed + c.older <= c.switched && c.switched + c.newer <= |live.history|
            && NewTables(files, Replayed(live.history, c), old(versions.nextFileNumber), versions.nextFileNumber)
            && maxSequence <= |live.history| && forall i :: c.flushed <= i < |live.history| && c.Has(i) ==>
              i < maxSequence
  {
    hide *;
    LiveFacts(live);
    LogsLeftParts(live, crc, older, newer, olderRecords, newerRecords);
    ghost var flushed, switched := live.flushed, live.flushed + |Concat(live.immLog)|;
    ghost var from := versions.nextFileNumber;
    LogsReplay(live.history, flushed, live.immLog, live.log, 0, 0);
    files, maxSequence, n := [], 0, 0;
    NothingReplayed(live.immLog, flushed, from);
    if older.Some? {
      files, maxSequence,
      n := RecoverLog(versions, crc, older.value, tooLarge, fileSize, 0, olderRecords, live.immLog, flushed);
    }
    ghost var between, earlier := versions.nextFileNumber, maxSequence;
    var more;
    more, maxSequence,
    m := RecoverLog(versions, crc, newer, tooLarge, fileSize, maxSequence, newerRecords, live.log, switched);
    FoundParts(live, older, newer, olderRecords, newerRecords, n, m);
    LogsReplay(live.history, flushed, live.immLog, live.log, n, m);
    ghost var c := SurvivorsOf(live, n, m);
    LogsJoin(live.history, c, files, more, from, between, versions.nextFileNumber);
    HighestFound(c, live.immLog, live.log, n, m, earlier, maxSequence);
    files := files + more;
  }

  lemma LogsJoin(h: History, c: Survivors, files: seq<File>, more: seq<File>, from: nat, between: nat, upto: nat)
    requires c.flushed + c.older <= c.switched && c.switched + c.newer <= |h| && from <= between <= upto
    requires NewTables(files, Numbered(h[c.flushed..c.flushed + c.older], c.flushed), from, between)
    requires NewTables(more, Numbered(h[c.switched..c.switched + c.newer], c.switched), between, upto)
    ensures NewTables(files + more, Replayed(h, c), from, upto)
  {
    hide NewTables, Numbered, Increasing;
    ReplayedIncreases(h, c);
    TableJoined(files, Numbered(h[c.flushed..c.flushed + c.older], c.flushed), from, between, more,
                Numbered(h[c.switched..c.switched + c.newer], c.switched), upto);
  }

  /** The highest sequence number found covers everything found. */
  lemma HighestFound(c: Survivors, immLog: seq<History>, log: seq<History>, n: nat, m: nat, earlier: nat, highest: nat)
    requires n <= |immLog| && m <= |log| && c.older == |Concat(immLog[..n])| && c.newer == |Concat(log[..m])|
    requires c.flushed + c.older <= c.switched
    requires earlier == var last := c.flushed + c.older; if n > 0 && 0 < last then last else 0
    requires highest == var last := c.switched + c.newer; if m > 0 && earlier < last then last else earlier
    ensures highest <= c.switched + c.newer && forall i :: c.flushed <= i && c.Has(i) ==> i < highest
  {
    assert immLog[..0] == [] && log[..0] == [];
  }

  lemma NothingReplayed(batches: seq<History>, first: nat, from: nat)
    ensures NewTables([], Numbered(Concat(batches[..0]), first), from, from) && |Concat(batches[..0])| == 0
  {
  }

  /** What the descriptor log says of a database that can be recovered. */
  lemma RecordedFacts(live: DB)
    requires live.Valid() && live.Durable()
    ensures live.versions.manifest != [] && LastRecorded(live.versions.manifest, LAST_SEQUENCE).Some?
    ensures live.flushed <= LastRecorded(live.versions.manifest, LAST_SEQUENCE).value <= |live.history|
    ensures LastRecorded(live.versions.manifest, NEXT_FILE_NUMBER).Some?
    ensures live.versions.logNumber < LastRecorded(live.versions.manifest, NEXT_FILE_NUMBER).value
    ensures forall l, n :: 0 <= l < NUM_LEVELS && n in live.Held()[l] ==>
              n < LastRecorded(live.versions.manifest, NEXT_FILE_NUMBER).value
  {
    hide PlacesOrdered, Faithful, Contents, LastRecorded, FilesServe, LogsHold, VersionSet.Held, VersionSet.Valid,
         NumbersOk;
    forall l, n | 0 <= l < NUM_LEVELS && n in live.Held()[l]
      ensures n < LastRecorded(live.versions.manifest, NEXT_FILE_NUMBER).value
    {
      assert n in live.versions.Held(l);
    }
  }

  /** Recovered levels with the numbers they use. */
  lemma RecoveredHeld(live: DB, db: DB, from: nat)
    requires live.Valid() && live.Durable() && db.versions.manifest == [] && db.versions.levels == live.versions.levels
    requires db.pendingOutputs == {}
    requires LastRecorded(live.versions.manifest, NEXT_FILE_NUMBER).Some?
    requires from >= LastRecorded(live.versions.manifest, NEXT_FILE_NUMBER).value
    ensures NumbersOk(db.versions.levels, db.Held(), from) && Reserved(db.Held(), from, db.pendingOutputs)
    ensures |db.versions.levels| == NUM_LEVELS && forall g :: g in db.versions.levels[0] ==> g.number < from
  {
    hide PlacesOrdered, Faithful, Contents, LastRecorded, FilesServe, LogsHold, VersionSet.Valid, VersionSet.Recorded;
    LiveFacts(live);
    RecordedFacts(live);
    db.versions.HeldWhenUnrecorded();
    RecoveredNumbers(db.versions.levels, live.Held(), live.versions.nextFileNumber, db.Held(), from);
  }

  lemma NoSnapshots(low: nat, high: nat)
    ensures SnapshotsOrdered([], low, high)
  {
  }

  /** Enters the replayed tables and a new log into the version. */
  method InstallTables(db: DB, files: seq<File>, maxSequence: nat, ghost live: DB, ghost c: Survivors, ghost from: nat)
    requires live.Valid() && live.Durable() && db != live && db.versions != live.versions
    requires db.mem == [] && db.imm == None && db.snapshots == [] && db.pendingOutputs == {}
    requires db.immLog == [] && db.log == []
    requires db.versions.Valid() && db.versions.manifest == [] && db.versions.levels == live.versions.levels
    requires db.versions.logNumber == live.versions.logNumber
    requires Some(db.versions.lastSequence) == LastRecorded(live.versions.manifest, LAST_SEQUENCE)
    requires Some(from - 1) == LastRecorded(live.versions.manifest, NEXT_FILE_NUMBER)
    requires from <= db.versions.nextFileNumber
    requires c.flushed == live.flushed && c.flushed + c.older <= c.switched && c.switched + c.newer <= |live.history|
    requires NewTables(files, Replayed(live.history, c), from, db.versions.nextFileNumber)
    requires maxSequence <= |live.history| && forall i :: c.flushed <= i < |live.history| && c.Has(i) ==>
               i < maxSequence
    modifies db, db.versions
    ensures db.Valid() && db.Durable() && live.flushed <= |db.history| <= |live.history|
    ensures db.logFileNumber == old(db.versions.nextFileNumber)
    ensures db.history == Surviving(live.history, c, |db.history|)
    ensures forall i :: c.flushed <= i < |live.history| && c.Has(i) ==> i < |db.history|
  {
    hide *;
    LiveFacts(live);
    RecordedFacts(live);
    RecoveredHeld(live, db, from);
    RecoveredHeld(live, db, db.versions.nextFileNumber);
    ghost var levels, h := db.versions.levels, live.history;
    if db.versions.lastSequence < maxSequence {
      db.SetLastSequence(maxSequence);
    }
    ghost var n := db.versions.lastSequence;
    ghost var held, upto := db.Held(), db.versions.nextFileNumber;
    db.logFileNumber := db.NewFileNumber();
    var edit := Edit(Some(db.logFileNumber), Some(0), None, None, [], {}, AdditionsOf(0, files));
    TablesEdit(held, levels, from, files, Replayed(h, c), upto, edit);
    db.Install(edit);
    TablesInstalled(levels, held, from, files, Replayed(h, c), upto, edit, db.versions.levels, db.Held(),
                    db.versions.nextFileNumber);
    ReopenedServes(levels, h, live.horizon, c, n, files, from, upto, db.versions.levels);
    db.history, db.horizon, db.flushed := Surviving(h, c, n), Min(live.horizon, c.flushed), n;
    AllOnFile(db.versions.levels, db.history, db.horizon);
    NoSnapshots(db.horizon, n);
    db.NumbersRecorded();
    db.ValidParts();
    db.DurableParts();
  }

  /**
   Opens what a crash left: the descriptor log and the live logs, each cut off at any byte.
   The new database is valid for the old history with the lost writes blanked out, and none
   of those was in a table file. If nothing survives behind a lost write, the database reads
   as after a prefix of the history.
   */
  method Open(manifest: seq<Edit>, older: Option<LogFile>, newer: LogFile, crc: Checksum, tooLarge: seq<Entry> -> bool,
              fileSize: seq<Entry> -> nat, ghost live: DB, ghost olderRecords: seq<LogRecovery.Logged>,
              ghost newerRecords: seq<LogRecovery.Logged>)
    returns (db: DB, ghost n: nat, ghost m: nat)
    requires live.Valid() && live.Durable() && manifest == live.versions.manifest
    requires LogsLeft(live, crc, older, newer, olderRecords, newerRecords)
    ensures fresh(db) && fresh(db.versions) && db.Valid() && db.Durable() && db.logFileNumber > live.logFileNumber
    ensures RecordsFound(live, older, newer, olderRecords, newerRecords, n, m)
    ensures live.flushed <= |db.history| <= |live.history|
    ensures db.history == Surviving(live.history, SurvivorsOf(live, n, m), |db.history|)
    ensures var c := SurvivorsOf(live, n, m);
            && (forall i :: 0 <= i < |live.history| && c.Has(i) ==>
                  i < |db.history| && db.history[i] == live.history[i])
            && (c.NoGap() ==> c.Length() <= |db.history| && ReadsAlike(db.history, live.history[..c.Length()]))
  {
    hide *;
    LiveFacts(live);
    RecordedFacts(live);
    var versions := Reopen(manifest, live.versions);
    ghost var from := versions.nextFileNumber;
    var files, maxSequence;
    files, maxSequence, n, m := ReplayLogs(versions, older, newer, crc, tooLarge, fileSize, live, olderRecords,
                                           newerRecords);
    ghost var c := SurvivorsOf(live, n, m);
    db := new DB.Recovering(versions);
    InstallTables(db, files, maxSequence, live, c, from);
    SurvivorsRead(live.history, c, |db.history|);
  }

  lemma SurvivorsRead(h: History, c: Survivors, n: nat)
    requires c.flushed <= n <= |h| && c.flushed + c.older <= c.switched && c.switched + c.newer <= |h|
    requires forall i :: c.flushed <= i < |h| && c.Has(i) ==> i < n
    ensures forall i :: 0 <= i < |h| && c.Has(i) ==> i < n && Surviving(h, c, n)[i] == h[i]
    ensures c.NoGap() ==> c.Length() <= n && ReadsAlike(Surviving(h, c, n), h[..c.Length()])
  {
    hide Surviving, ValueAfter;
    SurvivingMeans(h, c, n);
    if c.NoGap() {
      assert c.Length() > c.flushed ==> c.Has(c.Length() - 1);
      forall key ensures ValueAfter(Surviving(h, c, n), key) == ValueAfter(h[..c.Length()], key) {
        SurvivorsArePrefix(h, c, n, key, n);
        assert Surviving(h, c, n)[..n] == Surviving(h, c, n);
      }
    }
  }
}
