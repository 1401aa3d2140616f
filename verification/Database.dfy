/**
 The database as a multi-version map (db/db_impl.cc, db/snapshot.h,
 db/memtable.cc). Every operation keeps the invariant that makes `Get` return
 the value after the first `snapshot` writes of the history.
 */
module Database {
  import opened Wrappers
  import opened Keys
  import opened Mvcc
  import opened Cursors
  import opened Versions
  import opened Inputs
  import opened Manifest
  import opened Lsm

  // ---------- the memtable ----------

  /** A new version goes before the first entry at or after it. */
  function Insert(mem: seq<Entry>, e: Entry): seq<Entry> {
    var i := SeekPos(mem, e.Ikey());
    mem[..i] + [e] + mem[i..]
  }

  lemma InsertSorted(mem: seq<Entry>, e: Entry)
    requires Sorted(mem) && forall f :: f in mem ==> f.seqno < e.seqno
    ensures Sorted(Insert(mem, e)) && Elems(Insert(mem, e)) == Elems(mem) + iset{e}
  {
    SeekPosSplits(mem, e.Ikey());
    var i := SeekPos(mem, e.Ikey());
    forall j | i <= j < |mem| ensures Less(e.Ikey(), mem[j].Ikey()) {
      assert mem[i] in mem && mem[j] in mem;
      assert j > i ==> Less(mem[i].Ikey(), mem[j].Ikey());
    }
    JoinSorted(mem, i, e);
  }

  lemma JoinSorted(mem: seq<Entry>, i: nat, e: Entry)
    requires Sorted(mem) && i <= |mem|
    requires forall j :: 0 <= j < i ==> Less(mem[j].Ikey(), e.Ikey())
    requires forall j :: i <= j < |mem| ==> Less(e.Ikey(), mem[j].Ikey())
    ensures Sorted(mem[..i] + [e] + mem[i..])
    ensures Elems(mem[..i] + [e] + mem[i..]) == Elems(mem) + iset{e}
  {
    InsertMembers(mem, i, e);
  }

  // ---------- merging the inputs of a compaction ----------

  function Merge(a: seq<Entry>, b: seq<Entry>): seq<Entry> {
    if a == [] then b
    else if b == [] then a
    else if Less(a[0].Ikey(), b[0].Ikey()) then [a[0]] + Merge(a[1..], b)
    else [b[0]] + Merge(a, b[1..])
  }

  /** No internal key occurs in both. */
  ghost predicate Apart(a: seq<Entry>, b: seq<Entry>) {
    forall e, f :: e in a && f in b ==> e.Ikey() != f.Ikey()
  }

  lemma {:induction false} MergeMembers(a: seq<Entry>, b: seq<Entry>)
    ensures forall e :: e in Merge(a, b) <==> e in a || e in b
  {
    if a != [] && b != [] {
      assert a == [a[0]] + a[1..] && b == [b[0]] + b[1..];
      if Less(a[0].Ikey(), b[0].Ikey()) {
        MergeMembers(a[1..], b);
      } else {
        MergeMembers(a, b[1..]);
      }
    }
  }

  lemma {:induction false} MergeSorted(a: seq<Entry>, b: seq<Entry>)
    requires Sorted(a) && Sorted(b) && Apart(a, b)
    ensures Sorted(Merge(a, b))
  {
    if a != [] && b != [] {
      var (first, a', b') := if Less(a[0].Ikey(), b[0].Ikey()) then (a[0], a[1..], b) else (b[0], a, b[1..]);
      MergeSorted(a', b');
      MergeMembers(a', b');
      assert a[0] in a && b[0] in b;
      forall e | e in Merge(a', b') ensures Less(first.Ikey(), e.Ikey()) {
        HeadIsLeast(a, e);
        HeadIsLeast(b, e);
      }
      PrependSorted(first, Merge(a', b'));
    }
  }

  lemma HeadIsLeast(a: seq<Entry>, e: Entry)
    requires Sorted(a) && a != []
    ensures e in a ==> e == a[0] || Less(a[0].Ikey(), e.Ikey())
    ensures e in a[1..] ==> Less(a[0].Ikey(), e.Ikey())
  {
  }

  lemma PrependSorted(first: Entry, rest: seq<Entry>)
    requires Sorted(rest) && forall e :: e in rest ==> Less(first.Ikey(), e.Ikey())
    ensures Sorted([first] + rest)
  {
  }

  function MergeAll(files: seq<File>): seq<Entry> {
    if files == [] then [] else Merge(MergeAll(files[..|files| - 1]), files[|files| - 1].entries)
  }

  lemma {:induction false} MergeAllMembers(files: seq<File>)
    ensures forall e :: e in MergeAll(files) <==> InFiles(files, e)
  {
    if files != [] {
      var init, last := files[..|files| - 1], files[|files| - 1];
      MergeAllMembers(init);
      MergeMembers(MergeAll(init), last.entries);
      assert files == init + [last];
      forall e ensures InFiles(files, e) <==> InFiles(init, e) || e in last.entries {
        assert last in files;
        assert forall f :: f in files <==> f in init || f == last;
      }
    }
  }

  lemma {:induction false} MergeAllSorted(files: seq<File>)
    requires ValidFiles(files)
    requires forall i, j :: 0 <= i < j < |files| ==> Apart(files[i].entries, files[j].entries)
    ensures Sorted(MergeAll(files))
  {
    if files != [] {
      var init, last := files[..|files| - 1], files[|files| - 1];
      MergeAllSorted(init);
      MergeAllMembers(init);
      assert Apart(MergeAll(init), last.entries) by {
        forall e, f | e in MergeAll(init) && f in last.entries ensures e.Ikey() != f.Ikey() {
          var g :| g in init && e in g.entries;
          var i :| 0 <= i < |init| && init[i] == g;
          assert files[i] == g;
        }
      }
      MergeSorted(MergeAll(init), last.entries);
    }
  }

  lemma NewerIsApart(f: File, g: File)
    requires Newer(f, g) || Newer(g, f)
    ensures Apart(f.entries, g.entries)
  {
    forall e, x | e in f.entries && x in g.entries ensures e.Ikey() != x.Ikey() {
      assert e in Elems(f.entries) && x in Elems(g.entries);
    }
  }

  lemma SeparatedIsApart(f: File, g: File)
    requires ValidFile(f) && ValidFile(g) && Separated(f, g)
    ensures Apart(f.entries, g.entries)
  {
    forall e, x | e in f.entries && x in g.entries ensures e.Ikey() != x.Ikey() {
      FileBounds(f, e);
      FileBounds(g, x);
    }
  }

  lemma SameLevelIsApart(levels: seq<seq<File>>, l: nat, f: File, g: File)
    requires TreeInv(levels) && l < NUM_LEVELS && f in levels[l] && g in levels[l] && f != g
    ensures Apart(f.entries, g.entries)
  {
    if l == 0 {
      var i :| 0 <= i < |levels[0]| && levels[0][i] == f;
      var j :| 0 <= j < |levels[0]| && levels[0][j] == g;
      assert f.number != g.number;
      NewerIsApart(f, g);
    } else {
      DisjointIsSeparated(levels[l]);
      assert f in FileSet(levels[l]) && g in FileSet(levels[l]);
      SeparatedIsApart(f, g);
    }
  }

  lemma InputsMerge(levels: seq<seq<File>>, p: Pick)
    requires TreeInv(levels) && p.level + 1 < NUM_LEVELS
    requires NoDup(p.inputs0) && NoDup(p.inputs1)
    requires forall f :: f in p.inputs0 ==> f in levels[p.level]
    requires forall f :: f in p.inputs1 ==> f in levels[p.level + 1]
    ensures Sorted(MergeAll(p.inputs0 + p.inputs1))
    ensures forall e :: e in MergeAll(p.inputs0 + p.inputs1) <==> InInputs(p, e)
  {
    var all := p.inputs0 + p.inputs1;
    forall i | 0 <= i < |all| ensures ValidFile(all[i]) {
      if i < |p.inputs0| {
        assert all[i] in p.inputs0;
      } else {
        assert all[i] in p.inputs1;
      }
    }
    forall i, j | 0 <= i < j < |all| ensures Apart(all[i].entries, all[j].entries) {
      if j < |p.inputs0| {
        assert all[i] in p.inputs0 && all[j] in p.inputs0;
        SameLevelIsApart(levels, p.level, all[i], all[j]);
      } else if i < |p.inputs0| {
        assert all[i] in p.inputs0 && all[j] in p.inputs1;
        NewerIsApart(all[i], all[j]);
      } else {
        assert all[i] in p.inputs1 && all[j] in p.inputs1;
        SameLevelIsApart(levels, p.level + 1, all[i], all[j]);
      }
    }
    MergeAllSorted(all);
    MergeAllMembers(all);
    forall e ensures InFiles(all, e) <==> InInputs(p, e) {
      assert forall f :: f in all <==> f in p.inputs0 || f in p.inputs1;
    }
  }

  // ---------- the invariant ----------

  function EntriesOf(imm: Option<seq<Entry>>): seq<Entry> { if imm.Some? then imm.value else [] }

  ghost function Contents(mem: seq<Entry>, imm: Option<seq<Entry>>, levels: seq<seq<File>>): iset<Entry> {
    Elems(mem) + Elems(EntriesOf(imm)) + StoredFrom(levels, 0)
  }

  ghost predicate PlacesOrdered(mem: seq<Entry>, imm: Option<seq<Entry>>, levels: seq<seq<File>>) {
    && TreeInv(levels) && Sorted(mem) && Sorted(EntriesOf(imm))
    && NewerThan(Elems(mem), Elems(EntriesOf(imm)) + StoredFrom(levels, 0))
    && NewerThan(Elems(EntriesOf(imm)), StoredFrom(levels, 0))
  }

  /** Stored versions are committed writes and reads from `horizon` on are right. */
  ghost predicate Faithful(s: iset<Entry>, h: History, horizon: nat) {
    |h| < MAX_SEQUENCE_NUMBER && horizon <= |h| && FromHistory(s, h) && ReadsRightFrom(s, h, horizon)
  }

  predicate SnapshotsOrdered(snapshots: seq<nat>, low: nat, high: nat) {
    && (forall i :: 0 <= i < |snapshots| ==> low <= snapshots[i] <= high)
    && (forall i, j :: 0 <= i < j < |snapshots| ==> snapshots[i] <= snapshots[j])
  }

  /** mem, then imm, then the files, stopping at the first answer, is exact. */
  lemma SearchInOrder(mem: seq<Entry>, imm: Option<seq<Entry>>, levels: seq<seq<File>>, key: UserKey, snapshot: nat,
                      onDisk: Option<Entry>)
    requires PlacesOrdered(mem, imm, levels) && Answers(StoredFrom(levels, 0), key, snapshot, onDisk)
    ensures var m, i := Lookup(mem, key, snapshot), Lookup(EntriesOf(imm), key, snapshot);
            Answers(Contents(mem, imm, levels), key, snapshot, if m.Some? then m else if i.Some? then i else onDisk)
  {
    var im := EntriesOf(imm);
    LookupAnswers(mem, key, snapshot);
    LookupAnswers(im, key, snapshot);
    var m, i := Lookup(mem, key, snapshot), Lookup(im, key, snapshot);
    var below := Elems(im) + StoredFrom(levels, 0);
    assert Contents(mem, imm, levels) == Elems(mem) + below;
    if i.Some? {
      FirstAnswerWins(Elems(im), StoredFrom(levels, 0), key, snapshot, i.value);
    } else {
      NextPlaceAnswers(Elems(im), StoredFrom(levels, 0), key, snapshot, onDisk);
    }
    if m.Some? {
      FirstAnswerWins(Elems(mem), below, key, snapshot, m.value);
    } else {
      NextPlaceAnswers(Elems(mem), below, key, snapshot, if i.Some? then i else onDisk);
    }
  }

  lemma StoreWrite(mem: seq<Entry>, imm: Option<seq<Entry>>, levels: seq<seq<File>>, h: History, horizon: nat, w: Write)
    requires PlacesOrdered(mem, imm, levels) && Faithful(Contents(mem, imm, levels), h, horizon)
    requires |h| + 1 < MAX_SEQUENCE_NUMBER
    ensures var mem' := Insert(mem, Entry(w.key, |h| + 1, w.op));
            PlacesOrdered(mem', imm, levels) && Faithful(Contents(mem', imm, levels), h + [w], horizon)
  {
    var e := Entry(w.key, |h| + 1, w.op);
    var s := Contents(mem, imm, levels);
    forall f | f in mem ensures f.seqno < e.seqno { assert f in s; }
    InsertSorted(mem, e);
    var mem' := Insert(mem, e);
    WriteKeepsReads(s, h, horizon, w);
    assert Contents(mem', imm, levels) == s + iset{e};
    assert NewerThan(Elems(mem'), Elems(EntriesOf(imm)) + StoredFrom(levels, 0)) by {
      forall f | f in Elems(EntriesOf(imm)) + StoredFrom(levels, 0) ensures f.seqno < e.seqno { assert f in s; }
    }
  }

  // ---------- compaction ----------

  lemma {:induction false} AnswerExists(s: iset<Entry>, key: UserKey, snapshot: nat)
    requires UniqueVersions(s)
    ensures exists r :: Answers(s, key, snapshot, r)
  {
    if e :| e in s && e.key == key && e.seqno == snapshot {
      assert Answers(s, key, snapshot, Some(e));
    } else if snapshot == 0 {
      assert Answers(s, key, snapshot, None);
    } else {
      AnswerExists(s, key, snapshot - 1);
      var r :| Answers(s, key, snapshot - 1, r);
      assert Answers(s, key, snapshot, r);
    }
  }

  lemma SplitSets(above: iset<Entry>, low: nat, levels: seq<seq<File>>, levels': seq<seq<File>>, rest: iset<Entry>,
                  input: seq<Entry>, kept: seq<Entry>)
    requires forall e :: InLevels(levels, low, e) <==> e in rest || e in input
    requires forall e :: InLevels(levels', low, e) <==> e in rest || e in kept
    ensures above + StoredFrom(levels, low) == (above + rest) + Elems(input)
    ensures above + StoredFrom(levels', low) == (above + rest) + Elems(kept)
  {
  }

  // ---------- from edits to level changes ----------

  ghost predicate Edited(levels: seq<seq<File>>, e: Edit, levels': seq<seq<File>>) {
    && |levels'| == |levels| == NUM_LEVELS
    && forall l :: 0 <= l < NUM_LEVELS ==> Lists(levels'[l], EditLevel(FileSet(levels[l]), e, l))
  }

  lemma EditAddsFile(levels: seq<seq<File>>, at: nat, f: File, e: Edit, levels': seq<seq<File>>)
    requires Edited(levels, e, levels') && at < NUM_LEVELS && e.deleted == {} && e.added == [(at, f)]
    ensures Added(levels, at, f, levels')
    ensures forall l :: AddedAt(e, l) == if l == at then {f} else {}
  {
    assert (at, f) in e.added;
    forall l | 0 <= l < NUM_LEVELS
      ensures EditLevel(FileSet(levels[l]), e, l) == if l == at then FileSet(levels[l]) + {f} else FileSet(levels[l])
    {
    }
  }

  function DeletionsOf(level: nat, inputs: seq<File>): set<(nat, nat)> { set f | f in inputs :: (level, f.number) }

  function AdditionsOf(level: nat, outputs: seq<File>): seq<(nat, File)> {
    seq(|outputs|, i requires 0 <= i < |outputs| => (level, outputs[i]))
  }

  lemma EditFiles(p: Pick, outputs: seq<File>, e: Edit)
    requires e.deleted == DeletionsOf(p.level, p.inputs0) + DeletionsOf(p.level + 1, p.inputs1)
    requires e.added == AdditionsOf(p.level + 1, outputs)
    ensures DeletedAt(e, p.level) == Numbers(FileSet(p.inputs0))
    ensures DeletedAt(e, p.level + 1) == Numbers(FileSet(p.inputs1))
    ensures forall l :: l != p.level && l != p.level + 1 ==> DeletedAt(e, l) == {}
    ensures forall l :: AddedAt(e, l) == if l == p.level + 1 then FileSet(outputs) else {}
  {
    forall f | f in outputs ensures (p.level + 1, f) in e.added {
      var i :| 0 <= i < |outputs| && outputs[i] == f;
      assert e.added[i] == (p.level + 1, f);
    }
    forall n | n in Numbers(FileSet(p.inputs0)) ensures n in DeletedAt(e, p.level) {
      var f :| f in FileSet(p.inputs0) && f.number == n;
      assert (p.level, n) in DeletionsOf(p.level, p.inputs0);
    }
    forall n | n in Numbers(FileSet(p.inputs1)) ensures n in DeletedAt(e, p.level + 1) {
      var f :| f in FileSet(p.inputs1) && f.number == n;
      assert (p.level + 1, n) in DeletionsOf(p.level + 1, p.inputs1);
    }
  }

  /** Deleting by number removes exactly the chosen files. */
  lemma RemoveByNumber(files: set<File>, inputs: seq<File>)
    requires NumbersIdentify(files) && forall f :: f in inputs ==> f in files
    ensures (set f | f in files && f.number !in Numbers(FileSet(inputs))) == files - FileSet(inputs)
  {
    forall f | f in files ensures f.number in Numbers(FileSet(inputs)) <==> f in FileSet(inputs) {
    }
  }

  lemma EditReplaces(levels: seq<seq<File>>, p: Pick, outputs: seq<File>, e: Edit, levels': seq<seq<File>>)
    requires Edited(levels, e, levels') && p.level + 1 < NUM_LEVELS
    requires forall l :: 0 <= l < NUM_LEVELS ==> NumbersIdentify(FileSet(levels[l]))
    requires forall f :: f in p.inputs0 ==> f in levels[p.level]
    requires forall f :: f in p.inputs1 ==> f in levels[p.level + 1]
    requires e.deleted == DeletionsOf(p.level, p.inputs0) + DeletionsOf(p.level + 1, p.inputs1)
    requires e.added == AdditionsOf(p.level + 1, outputs)
    ensures Replaced(levels, p, outputs, levels')
  {
    EditFiles(p, outputs, e);
    RemoveByNumber(FileSet(levels[p.level]), p.inputs0);
    RemoveByNumber(FileSet(levels[p.level + 1]), p.inputs1);
    forall l | 0 <= l < NUM_LEVELS
      ensures EditLevel(FileSet(levels[l]), e, l) == LevelAfter(levels, p, outputs, l)
    {
    }
  }

  // ---------- file numbers ----------

  /** Numbers are handed out once, and a file only ever moves to deeper levels. */
  ghost predicate NumbersOk(levels: seq<seq<File>>, held: seq<set<nat>>, next: nat) {
    && |levels| == |held| == NUM_LEVELS
    && (forall l, n :: 0 <= l < NUM_LEVELS && n in held[l] ==> n < next)
    && (forall l, f :: 0 <= l < NUM_LEVELS && f in levels[l] ==> f.number in held[l])
    && (forall l, m, f :: 0 <= l < m < NUM_LEVELS && f in levels[l] ==> f.number !in held[m])
  }

  lemma NewNumbersOk(levels: seq<seq<File>>, held: seq<set<nat>>, next: nat, at: nat, added: set<nat>, next': nat,
                     levels': seq<seq<File>>, held': seq<set<nat>>)
    requires NumbersOk(levels, held, next) && next <= next' && at < NUM_LEVELS
    requires forall n, l :: n in added && 0 <= l < NUM_LEVELS ==> n < next' && n !in held[l]
    requires |levels'| == |held'| == NUM_LEVELS
    requires forall l :: 0 <= l < NUM_LEVELS ==> held'[l] == if l == at then held[l] + added else held[l]
    requires forall l, f :: 0 <= l < NUM_LEVELS && f in levels'[l] ==> f in levels[l] || (l == at && f.number in added)
    ensures NumbersOk(levels', held', next')
  {
  }

  lemma MovedNumberOk(levels: seq<seq<File>>, held: seq<set<nat>>, next: nat, level: nat, f: File,
                      levels': seq<seq<File>>, held': seq<set<nat>>)
    requires NumbersOk(levels, held, next) && level + 1 < NUM_LEVELS && f in levels[level]
    requires NumbersIdentify(FileSet(levels[level]))
    requires |levels'| == |held'| == NUM_LEVELS
    requires forall l :: 0 <= l < NUM_LEVELS ==> held'[l] == if l == level + 1 then held[l] + {f.number} else held[l]
    requires forall l, g :: 0 <= l < NUM_LEVELS && g in levels'[l] ==>
               (g in levels[l] && !(l == level && g == f)) || (l == level + 1 && g == f)
    ensures NumbersOk(levels', held', next)
  {
    forall l, m, g | 0 <= l < m < NUM_LEVELS && g in levels'[l] ensures g.number !in held'[m] {
      if g in levels[l] && m == level + 1 {
        assert f in FileSet(levels[level]);
        assert f.number in held[level];
        if l == level { assert g in FileSet(levels[level]); }
      }
    }
  }
}
