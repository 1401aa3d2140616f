/**
 What flushing a memtable, moving a file down and compacting do to the levels:
 the order of levels, the recency rule that lets lookups stop early, and the
 set of stored versions.
 */
module Lsm {
  import opened Wrappers
  import opened Keys
  import opened Mvcc
  import opened Versions
  import opened Inputs
  import opened Manifest
  import opened Compactions

  ghost predicate TreeInv(levels: seq<seq<File>>) {
    ValidLevels(levels) && Recency(levels) && DistinctNumbers(levels[0])
  }

  predicate Separated(f: File, g: File) {
    Less(f.Largest(), g.Smallest()) || Less(g.Largest(), f.Smallest())
  }

  ghost predicate PairwiseSeparated(files: set<File>) {
    forall f, g :: f in files && g in files && f != g ==> Separated(f, g)
  }

  lemma DisjointIsSeparated(files: seq<File>)
    requires Disjoint(files)
    ensures PairwiseSeparated(FileSet(files))
  {
  }

  lemma SeparatedIsDisjoint(files: seq<File>)
    requires ValidFiles(files) && InOrder(files) && PairwiseSeparated(FileSet(files))
    ensures Disjoint(files)
  {
    forall i, j | 0 <= i < j < |files| ensures Less(files[i].Largest(), files[j].Smallest()) {
      assert files[i] in FileSet(files) && files[j] in FileSet(files);
      assert BySmallestKey(files[i], files[j]);
      FileBounds(files[j], files[j].entries[0]);
    }
  }

  // ---------- closed selections ----------

  /** Files outside the selection hold no older version of a key held inside it. */
  ghost predicate Closed(files: seq<File>, inputs: seq<File>) {
    forall f, g :: f in inputs && g in files && g !in inputs ==> Newer(g, f)
  }

  /** What a caller can check: no selected file shares its last user key with an unselected right neighbour. */
  predicate BoundaryClear(files: seq<File>, inputs: seq<File>) {
    forall i :: 0 <= i < |files| - 1 && files[i] in inputs && files[i + 1] !in inputs ==>
      files[i].Largest().user != files[i + 1].Smallest().user
  }

  /** The check is exact on every sorted level whose versions of one key are ordered. */
  lemma BoundaryClearIsClosed(files: seq<File>, inputs: seq<File>)
    requires ValidFiles(files) && Disjoint(files) && forall f :: f in inputs ==> f in files
    requires VersionsOrdered(files)
    ensures BoundaryClear(files, inputs) <==> Closed(files, inputs)
  {
    if BoundaryClear(files, inputs) {
      ClearIsClosed(files, inputs);
    }
    if Closed(files, inputs) {
      ClosedIsClear(files, inputs);
    }
  }

  lemma ClearIsClosed(files: seq<File>, inputs: seq<File>)
    requires ValidFiles(files) && Disjoint(files) && forall f :: f in inputs ==> f in files
    requires VersionsOrdered(files) && BoundaryClear(files, inputs)
    ensures Closed(files, inputs)
  {
    hide BoundaryClear, Disjoint, ValidFile;
    forall f, g | f in inputs && g in files && g !in inputs ensures Newer(g, f) {
      var i :| 0 <= i < |files| && files[i] == f;
      var j :| 0 <= j < |files| && files[j] == g;
      forall x, e | x in g.entries && e in f.entries && x.key == e.key ensures x.seqno > e.seqno {
        if i < j {
          SharedBoundary(files, inputs, i, j, e, x);
        } else {
          assert VersionsOrderedAt(files, j, i);
        }
      }
    }
  }

  lemma ClosedIsClear(files: seq<File>, inputs: seq<File>)
    requires ValidFiles(files) && VersionsOrdered(files) && Closed(files, inputs)
    ensures BoundaryClear(files, inputs)
  {
    forall i | 0 <= i < |files| - 1 && files[i] in inputs && files[i + 1] !in inputs
      ensures files[i].Largest().user != files[i + 1].Smallest().user
    {
      var e, x := files[i].entries[|files[i].entries| - 1], files[i + 1].entries[0];
      assert e in Elems(files[i].entries) && x in Elems(files[i + 1].entries);
      assert VersionsOrderedAt(files, i, i + 1);
      assert files[i + 1] in files && Newer(files[i + 1], files[i]);
    }
  }

  /** In a sorted level an earlier file holds the newer versions of a shared key. */
  ghost predicate VersionsOrderedAt(files: seq<File>, i: nat, j: nat)
    requires i < |files| && j < |files|
  {
    forall e, x :: e in files[i].entries && x in files[j].entries && e.key == x.key ==> e.seqno > x.seqno
  }

  ghost predicate VersionsOrdered(files: seq<File>) {
    forall i, j :: 0 <= i < j < |files| ==> VersionsOrderedAt(files, i, j)
  }

  /** Equal keys in two files force every boundary between them to be that key. */
  lemma {:induction false} SharedBoundary(files: seq<File>, inputs: seq<File>, i: nat, j: nat, e: Entry, x: Entry)
    requires ValidFiles(files) && Disjoint(files)
    requires i < j < |files| && files[i] in inputs && files[j] !in inputs
    requires e in files[i].entries && x in files[j].entries && x.key == e.key
    ensures !BoundaryClear(files, inputs)
    decreases j - i
  {
    FileBounds(files[i], e);
    FileBounds(files[j], x);
    assert Less(files[i].Largest(), files[i + 1].Smallest());
    var first, last := files[i + 1].entries[0], files[i + 1].entries[|files[i + 1].entries| - 1];
    FileBounds(files[i + 1], first);
    FileBounds(files[i + 1], last);
    assert i + 1 < j ==> Less(files[i + 1].Largest(), files[j].Smallest());
    assert first.key == e.key;
    if files[i + 1] in inputs {
      SharedBoundary(files, inputs, i + 1, j, first, x);
    }
  }

  /** Level-0 selections closed under overlap are closed. */
  lemma OverlapClosedIsClosed(files: seq<File>, inputs: seq<File>, smallest: InternalKey, largest: InternalKey)
    requires ValidFiles(files) && ValidFiles(inputs) && IsRange(inputs, smallest, largest)
    requires ClosedUnderOverlap(files, inputs)
    ensures Closed(files, inputs)
  {
    forall f, g | f in inputs && g in files && g !in inputs ensures Newer(g, f) {
      assert !Overlaps(g, Some(smallest.user), Some(largest.user));
      var i :| 0 <= i < |inputs| && inputs[i] == f;
      OutsideRangeIsNewer(g, f, smallest, largest);
    }
  }

  lemma OutsideRangeIsNewer(g: File, f: File, smallest: InternalKey, largest: InternalKey)
    requires ValidFile(g) && ValidFile(f)
    requires !Less(f.Smallest(), smallest) && !Less(largest, f.Largest())
    requires !Overlaps(g, Some(smallest.user), Some(largest.user))
    ensures Newer(g, f)
  {
    forall x, e | x in g.entries && e in f.entries ensures x.key != e.key {
      FileBounds(g, x);
      FileBounds(f, e);
    }
  }

  // ---------- flush ----------

  /** `levels'` is `levels` with one more file at level `at`. */
  ghost predicate Added(levels: seq<seq<File>>, at: nat, f: File, levels': seq<seq<File>>) {
    && |levels'| == |levels| == NUM_LEVELS && at < NUM_LEVELS
    && forall l :: 0 <= l < NUM_LEVELS ==>
         Lists(levels'[l], if l == at then FileSet(levels[l]) + {f} else FileSet(levels[l]))
  }

  /** The new file lies in level 0, or deeper and clear of every file down to its level. */
  ghost predicate PlacedAt(levels: seq<seq<File>>, at: nat, f: File, levels': seq<seq<File>>) {
    && ValidFile(f) && Added(levels, at, f, levels')
    && (at > 0 ==> forall l :: 0 <= l <= at ==> Clear(levels[l], f.Smallest().user, f.Largest().user))
  }

  /** A memtable became a file at the level PickLevelForMemTableOutput chooses; an empty one leaves no file. */
  ghost predicate Flushed(levels: seq<seq<File>>, entries: seq<Entry>, maxGrandparentBytes: nat,
                          levels': seq<seq<File>>)
    requires |levels| == NUM_LEVELS
  {
    if entries == [] then levels' == levels
    else exists at: nat, f: File ::
           f.entries == entries && PlacedAt(levels, at, f, levels')
           && IsMemTableLevel(levels, f.Smallest().user, f.Largest().user, maxGrandparentBytes, at)
  }

  lemma FlushKeepsTree(levels: seq<seq<File>>, at: nat, f: File, levels': seq<seq<File>>)
    requires TreeInv(levels) && PlacedAt(levels, at, f, levels')
    requires NewerThan(Elems(f.entries), StoredFrom(levels, 0))
    requires forall g :: g in levels[0] ==> g.number < f.number
    ensures TreeInv(levels')
    ensures StoredFrom(levels', 0) == StoredFrom(levels, 0) + Elems(f.entries)
  {
    AddedMembers(levels, at, f, levels');
    AddedStored(levels, at, f, levels');
    forall l | 1 <= l < NUM_LEVELS ensures Disjoint(levels'[l]) {
      DisjointIsSeparated(levels[l]);
      if l == at {
        forall g | g in levels[l] ensures Separated(f, g) { ClearIsSeparated(levels[l], g, f); }
      }
      SeparatedIsDisjoint(levels'[l]);
    }
    NewFileIsNewer(levels, f);
    forall i, j, g, h | 0 <= i < j < NUM_LEVELS && g in levels'[i] && h in levels'[j] ensures Newer(g, h) {
      if h == f && g in levels[i] && j == at {
        ClearMeansNoCommonKey(levels[i], g, f);
      }
    }
    StrictlyNumbered(levels'[0]);
  }

  lemma AddedMembers(levels: seq<seq<File>>, at: nat, f: File, levels': seq<seq<File>>)
    requires Added(levels, at, f, levels')
    ensures forall l, g :: 0 <= l < NUM_LEVELS ==> (g in levels'[l] <==> g in levels[l] || (l == at && g == f))
  {
    hide Lists;
    forall l, g ensures 0 <= l < NUM_LEVELS ==> (g in levels'[l] <==> g in levels[l] || (l == at && g == f)) {
      if 0 <= l < NUM_LEVELS {
        ListedFiles(levels'[l], if l == at then FileSet(levels[l]) + {f} else FileSet(levels[l]));
        assert g in FileSet(levels'[l]) <==> g in levels'[l];
      }
    }
  }

  lemma ListedFiles(files: seq<File>, s: set<File>)
    requires Lists(files, s)
    ensures FileSet(files) == s
  {
  }

  /** One more file adds its versions to the store. */
  lemma AddedStored(levels: seq<seq<File>>, at: nat, f: File, levels': seq<seq<File>>)
    requires Added(levels, at, f, levels')
    ensures StoredFrom(levels', 0) == StoredFrom(levels, 0) + Elems(f.entries)
  {
    hide Lists;
    AddedMembers(levels, at, f, levels');
    forall e ensures InLevels(levels', 0, e) <==> InLevels(levels, 0, e) || e in f.entries {
      if InLevels(levels, 0, e) {
        var l :| 0 <= l < |levels| && InFiles(levels[l], e);
        var g :| g in levels[l] && e in g.entries;
        assert g in levels'[l] && InFiles(levels'[l], e);
      }
      if e in f.entries { assert f in levels'[at] && InFiles(levels'[at], e); }
      if InLevels(levels', 0, e) {
        var l :| 0 <= l < |levels'| && InFiles(levels'[l], e);
        var g :| g in levels'[l] && e in g.entries;
        if g in levels[l] { assert InFiles(levels[l], e); }
      }
    }
  }

  lemma NewFileIsNewer(levels: seq<seq<File>>, f: File)
    requires NewerThan(Elems(f.entries), StoredFrom(levels, 0))
    ensures forall l, g :: 0 <= l < |levels| && g in levels[l] ==> Newer(f, g)
  {
    forall l, g | 0 <= l < |levels| && g in levels[l] ensures Newer(f, g) {
      forall e | e in g.entries ensures e in StoredFrom(levels, 0) { assert InFiles(levels[l], e); }
    }
  }

  /** Files in order whose equal numbers mean equal files have distinct numbers. */
  lemma StrictlyNumbered(files: seq<File>)
    requires InOrder(files)
    requires forall f, g :: f in files && g in files && f.number == g.number ==> f == g
    ensures DistinctNumbers(files)
  {
    forall i, j | 0 <= i < j < |files| ensures files[i].number != files[j].number {
      assert BySmallestKey(files[i], files[j]);
      assert files[i] in files && files[j] in files;
    }
  }

  lemma ClearMeansNoCommonKey(files: seq<File>, g: File, f: File)
    requires ValidFiles(files) && g in files && ValidFile(f) && Clear(files, f.Smallest().user, f.Largest().user)
    ensures Newer(g, f)
  {
    assert !Overlaps(g, Some(f.Smallest().user), Some(f.Largest().user));
    forall x, e | x in g.entries && e in f.entries ensures x.key != e.key {
      FileBounds(g, x);
      FileBounds(f, e);
    }
  }

  lemma ClearIsSeparated(files: seq<File>, g: File, f: File)
    requires ValidFiles(files) && g in files && ValidFile(f) && Clear(files, f.Smallest().user, f.Largest().user)
    ensures Separated(f, g) && Separated(g, f)
  {
    assert !Overlaps(g, Some(f.Smallest().user), Some(f.Largest().user));
  }

  // ---------- moving versions one level down ----------

  /** What a compaction merges: files of `level` and of the next, and the range of the former. */
  datatype Pick = Pick(level: nat, inputs0: seq<File>, inputs1: seq<File>, smallest: InternalKey, largest: InternalKey)

  /** A single file that goes down by itself. */
  function MoveOf(level: nat, f: File): Pick {
    Pick(level, [f], [], f.Smallest(), f.Largest())
  }

  /** Inputs as SetupOtherInputs returns them. */
  ghost predicate IsSetUp(levels: seq<seq<File>>, p: Pick)
    requires p.level + 1 < |levels|
  {
    GoodInputs(p.level, levels[p.level], levels[p.level + 1], p.inputs0, p.inputs1, p.smallest, p.largest)
  }

  /** `levels'` is `levels` with the inputs replaced by `outputs` at level+1. */
  ghost predicate Replaced(levels: seq<seq<File>>, p: Pick, outputs: seq<File>, levels': seq<seq<File>>) {
    && |levels'| == |levels| == NUM_LEVELS && p.level + 1 < NUM_LEVELS
    && forall l :: 0 <= l < NUM_LEVELS ==> Lists(levels'[l], LevelAfter(levels, p, outputs, l))
  }

  ghost function LevelAfter(levels: seq<seq<File>>, p: Pick, outputs: seq<File>, l: nat): set<File>
    requires l < |levels|
  {
    if l == p.level then FileSet(levels[l]) - FileSet(p.inputs0)
    else if l == p.level + 1 then (FileSet(levels[l]) - FileSet(p.inputs1)) + FileSet(outputs)
    else FileSet(levels[l])
  }

  /** The compaction was set up by SetupOtherInputs and its inputs are closed on both levels. */
  ghost predicate ClosedInputs(levels: seq<seq<File>>, p: Pick)
  {
    && ValidLevels(levels) && p.level + 1 < NUM_LEVELS
    && IsSetUp(levels, p)
    && Closed(levels[p.level], p.inputs0)
  }

  ghost predicate InInputs(p: Pick, e: Entry) {
    InFiles(p.inputs0, e) || InFiles(p.inputs1, e)
  }

  lemma InputFacts(levels: seq<seq<File>>, p: Pick)
    requires ValidLevels(levels) && p.level + 1 < NUM_LEVELS
    requires IsSetUp(levels, p)
    ensures forall f :: f in p.inputs0 ==> f in levels[p.level]
    ensures forall f :: f in p.inputs1 <==> f in levels[p.level + 1]
                                            && Overlaps(f, Some(p.smallest.user), Some(p.largest.user))
    ensures forall e :: InFiles(p.inputs0, e) ==> p.smallest.user <= e.key <= p.largest.user
    ensures p.inputs1 == MeetingRange(levels[p.level + 1], p.smallest, p.largest)
  {
    hide Overlapping, Overlaps, ClosedUnderOverlap, IsRange, NoDup, Disjoint, ValidFile;
    OverlappingMembers(levels[p.level + 1], Some(p.smallest.user), Some(p.largest.user));
    EntriesInRange(p.inputs0, p.smallest, p.largest);
  }

  lemma EntriesInRange(inputs: seq<File>, smallest: InternalKey, largest: InternalKey)
    requires ValidFiles(inputs) && IsRange(inputs, smallest, largest)
    ensures forall e :: InFiles(inputs, e) ==> smallest.user <= e.key <= largest.user
  {
    hide IsRange;
    RangeOrdered(inputs, smallest, largest);
    forall e | InFiles(inputs, e) ensures smallest.user <= e.key <= largest.user {
      var f :| f in inputs && e in f.entries;
      FileBounds(f, e);
    }
  }

  /** An unselected file of level+1 lies wholly to one side of everything the compaction writes. */
  lemma OutputsAvoidTheRest(levels: seq<seq<File>>, p: Pick, outputs: seq<File>, g: File, o: File)
    requires ValidLevels(levels) && p.level + 1 < NUM_LEVELS
    requires IsSetUp(levels, p)
    requires forall e :: InFiles(outputs, e) ==> InInputs(p, e)
    requires g in levels[p.level + 1] && g !in p.inputs1 && o in outputs && ValidFile(o)
    ensures Separated(g, o) && Separated(o, g)
  {
    InputFacts(levels, p);
    DisjointIsSeparated(levels[p.level + 1]);
    assert !Overlaps(g, Some(p.smallest.user), Some(p.largest.user));
    forall e | InFiles(p.inputs0, e) || InFiles(p.inputs1, e)
      ensures if g.Largest().user < p.smallest.user then Less(g.Largest(), e.Ikey()) else Less(e.Ikey(), g.Smallest())
    {
      if InFiles(p.inputs1, e) {
        var f :| f in p.inputs1 && e in f.entries;
        SideOfInput(levels[p.level + 1], g, f, p.smallest, p.largest, e);
      }
    }
    var first, last := o.entries[0], o.entries[|o.entries| - 1];
    assert InFiles(outputs, first) && InFiles(outputs, last);
  }

  lemma SideOfInput(files: seq<File>, g: File, f: File, smallest: InternalKey, largest: InternalKey, e: Entry)
    requires ValidFiles(files) && Disjoint(files) && g in files && f in files && e in f.entries
    requires Overlaps(f, Some(smallest.user), Some(largest.user))
    requires !Overlaps(g, Some(smallest.user), Some(largest.user))
    ensures if g.Largest().user < smallest.user then Less(g.Largest(), e.Ikey()) else Less(e.Ikey(), g.Smallest())
  {
    DisjointIsSeparated(files);
    assert g in FileSet(files) && f in FileSet(files);
    FileBounds(f, e);
    FileBounds(g, g.entries[0]);
  }

  /** No output meets a file that level+1 keeps. */
  predicate Fits(parents: seq<File>, inputs1: seq<File>, outputs: seq<File>) {
    forall g, o :: g in parents && g !in inputs1 && g !in outputs && o in outputs ==> Separated(g, o)
  }

  lemma PickedFits(levels: seq<seq<File>>, p: Pick, outputs: seq<File>)
    requires ValidLevels(levels) && p.level + 1 < NUM_LEVELS && ValidFiles(outputs)
    requires IsSetUp(levels, p)
    requires forall e :: InFiles(outputs, e) ==> InInputs(p, e)
    ensures Fits(levels[p.level + 1], p.inputs1, outputs)
  {
    forall g, o | g in levels[p.level + 1] && g !in p.inputs1 && o in outputs ensures Separated(g, o) {
      OutputsAvoidTheRest(levels, p, outputs, g, o);
    }
  }

  lemma OrderExact(levels: seq<seq<File>>, p: Pick, outputs: seq<File>, levels': seq<seq<File>>)
    requires ValidLevels(levels) && ValidFiles(outputs) && Disjoint(outputs)
    requires Replaced(levels, p, outputs, levels')
    ensures ValidLevels(levels') <==> Fits(levels[p.level + 1], p.inputs1, outputs)
  {
    var files := levels'[p.level + 1];
    DisjointIsSeparated(outputs);
    if Fits(levels[p.level + 1], p.inputs1, outputs) {
      FitsIsOrdered(levels, p, outputs, levels');
    }
    if ValidLevels(levels') {
      DisjointIsSeparated(files);
      forall g, o | g in levels[p.level + 1] && g !in p.inputs1 && g !in outputs && o in outputs
        ensures Separated(g, o)
      {
        assert g in FileSet(files) && o in FileSet(files);
      }
    }
  }

  lemma FitsIsOrdered(levels: seq<seq<File>>, p: Pick, outputs: seq<File>, levels': seq<seq<File>>)
    requires ValidLevels(levels) && ValidFiles(outputs) && Disjoint(outputs)
    requires Replaced(levels, p, outputs, levels') && Fits(levels[p.level + 1], p.inputs1, outputs)
    ensures ValidLevels(levels')
  {
    hide Disjoint, Separated, InOrder, ValidFile;
    DisjointIsSeparated(outputs);
    forall l | 1 <= l < NUM_LEVELS ensures Disjoint(levels'[l]) {
      DisjointIsSeparated(levels[l]);
      assert PairwiseSeparated(FileSet(levels'[l])) by { SymmetricSeparation(); }
      SeparatedIsDisjoint(levels'[l]);
    }
  }

  lemma SymmetricSeparation()
    ensures forall f, g :: Separated(f, g) <==> Separated(g, f)
  {
  }

  /** The unselected files of the upper level hold only newer versions than the outputs one level down. */
  ghost predicate NewerThanOutputs(files: seq<File>, inputs0: seq<File>, outputs: seq<File>) {
    forall g, o :: g in files && g !in inputs0 && o in outputs ==> Newer(g, o)
  }

  /**
   Everything searched before level+1 is newer than what the compaction writes there,
   and it is newer than everything deeper.
   */
  lemma OutputsKeepRecency(levels: seq<seq<File>>, p: Pick, outputs: seq<File>, o: File)
    requires ValidLevels(levels) && Recency(levels) && p.level + 1 < NUM_LEVELS
    requires forall f :: f in p.inputs0 ==> f in levels[p.level]
    requires forall f :: f in p.inputs1 ==> f in levels[p.level + 1]
    requires forall e :: InFiles(outputs, e) ==> InInputs(p, e)
    requires NewerThanOutputs(levels[p.level], p.inputs0, outputs) && o in outputs
    ensures forall l, g :: 0 <= l <= p.level && g in levels[l] && !Selected(p, l, g) ==> Newer(g, o)
    ensures forall l, g :: p.level + 2 <= l < NUM_LEVELS && g in levels[l] ==> Newer(o, g)
  {
    forall e | e in o.entries ensures InInputs(p, e) { assert InFiles(outputs, e); }
    forall l, g | 0 <= l < p.level && g in levels[l] ensures Newer(g, o) {
      forall x, e | x in g.entries && e in o.entries && x.key == e.key ensures x.seqno > e.seqno {
        NewerThanInput(levels, p, l, g, x, e);
      }
    }
    forall l, g | p.level + 2 <= l < NUM_LEVELS && g in levels[l] ensures Newer(o, g) {
      forall e, x | e in o.entries && x in g.entries && x.key == e.key ensures e.seqno > x.seqno {
        InputIsNewer(levels, p, l, g, e, x);
      }
    }
  }

  /**
   Versions searched before the inputs are newer, in the level itself where the
   selection is closed or the input lies deeper.
   */
  lemma NewerThanInput(levels: seq<seq<File>>, p: Pick, l: nat, g: File, x: Entry, e: Entry)
    requires |levels| == NUM_LEVELS && Recency(levels) && p.level + 1 < NUM_LEVELS
    requires forall f :: f in p.inputs0 ==> f in levels[p.level]
    requires forall f :: f in p.inputs1 ==> f in levels[p.level + 1]
    requires l < p.level || Closed(levels[p.level], p.inputs0) || !InFiles(p.inputs0, e)
    requires l <= p.level && g in levels[l] && !Selected(p, l, g)
    requires x in g.entries && x.key == e.key && InInputs(p, e)
    ensures x.seqno > e.seqno
  {
    assert x in Elems(g.entries);
    if InFiles(p.inputs0, e) {
      var f :| f in p.inputs0 && e in f.entries;
      assert e in Elems(f.entries);
      assert Newer(g, f);
    } else {
      var f :| f in p.inputs1 && e in f.entries;
      assert e in Elems(f.entries);
      assert Newer(g, f);
    }
  }

  lemma InputIsNewer(levels: seq<seq<File>>, p: Pick, l: nat, g: File, e: Entry, x: Entry)
    requires |levels| == NUM_LEVELS && Recency(levels) && p.level + 1 < NUM_LEVELS
    requires forall f :: f in p.inputs0 ==> f in levels[p.level]
    requires forall f :: f in p.inputs1 ==> f in levels[p.level + 1]
    requires p.level + 2 <= l < NUM_LEVELS && g in levels[l] && x in g.entries && x.key == e.key
    requires InInputs(p, e)
    ensures e.seqno > x.seqno
  {
    assert x in Elems(g.entries);
    if InFiles(p.inputs0, e) {
      var f :| f in p.inputs0 && e in f.entries;
      assert e in Elems(f.entries);
      assert Newer(f, g);
    } else {
      var f :| f in p.inputs1 && e in f.entries;
      assert e in Elems(f.entries);
      assert Newer(f, g);
    }
  }

  lemma MoveKeepsTree(levels: seq<seq<File>>, p: Pick, outputs: seq<File>, levels': seq<seq<File>>)
    requires TreeInv(levels) && ClosedInputs(levels, p)
    requires ValidFiles(outputs) && Disjoint(outputs)
    requires forall e :: InFiles(outputs, e) ==> InInputs(p, e)
    requires Replaced(levels, p, outputs, levels')
    ensures TreeInv(levels')
  {
    InputFacts(levels, p);
    forall g, o | g in levels[p.level] && g !in p.inputs0 && o in outputs ensures Newer(g, o) {
      forall x, e | x in g.entries && e in o.entries && x.key == e.key ensures x.seqno > e.seqno {
        assert InFiles(outputs, e);
        NewerThanInput(levels, p, p.level, g, x, e);
      }
    }
    MoveTreeExact(levels, p, outputs, levels');
  }

  lemma MoveTreeExact(levels: seq<seq<File>>, p: Pick, outputs: seq<File>, levels': seq<seq<File>>)
    requires TreeInv(levels) && p.level + 1 < NUM_LEVELS
    requires IsSetUp(levels, p)
    requires ValidFiles(outputs) && Disjoint(outputs)
    requires forall e :: InFiles(outputs, e) ==> InInputs(p, e)
    requires Replaced(levels, p, outputs, levels')
    ensures TreeInv(levels') <==> NewerThanOutputs(levels[p.level], p.inputs0, outputs)
  {
    InputFacts(levels, p);
    PickedFits(levels, p, outputs);
    InstallTreeExact(levels, p, outputs, levels');
  }

  /**
   Installing outputs keeps the tree exactly when the files left in the upper level
   are newer than they are and the files left in the lower level are clear of them.
   */
  lemma InstallTreeExact(levels: seq<seq<File>>, p: Pick, outputs: seq<File>, levels': seq<seq<File>>)
    requires TreeInv(levels) && p.level + 1 < NUM_LEVELS
    requires forall f :: f in p.inputs0 ==> f in levels[p.level]
    requires forall f :: f in p.inputs1 ==> f in levels[p.level + 1]
    requires ValidFiles(outputs) && Disjoint(outputs)
    requires forall e :: InFiles(outputs, e) ==> InInputs(p, e)
    requires Replaced(levels, p, outputs, levels')
    ensures TreeInv(levels') <==> NewerThanOutputs(levels[p.level], p.inputs0, outputs)
                                  && Fits(levels[p.level + 1], p.inputs1, outputs)
  {
    OrderExact(levels, p, outputs, levels');
    if NewerThanOutputs(levels[p.level], p.inputs0, outputs) {
      MoveKeepsRecency(levels, p, outputs, levels');
    }
    if TreeInv(levels') {
      forall g, o | g in levels[p.level] && g !in p.inputs0 && o in outputs ensures Newer(g, o) {
        ReplacedMember(levels, p, outputs, levels', p.level, g);
        ReplacedMember(levels, p, outputs, levels', p.level + 1, o);
      }
    }
  }

  lemma MoveKeepsRecency(levels: seq<seq<File>>, p: Pick, outputs: seq<File>, levels': seq<seq<File>>)
    requires ValidLevels(levels) && Recency(levels) && DistinctNumbers(levels[0]) && p.level + 1 < NUM_LEVELS
    requires forall f :: f in p.inputs0 ==> f in levels[p.level]
    requires forall f :: f in p.inputs1 ==> f in levels[p.level + 1]
    requires forall e :: InFiles(outputs, e) ==> InInputs(p, e)
    requires NewerThanOutputs(levels[p.level], p.inputs0, outputs)
    requires Replaced(levels, p, outputs, levels')
    ensures Recency(levels') && DistinctNumbers(levels'[0])
  {
    forall i, j, g, h | 0 <= i < j < NUM_LEVELS && g in levels'[i] && h in levels'[j] ensures Newer(g, h) {
      ReplacedMember(levels, p, outputs, levels', i, g);
      ReplacedMember(levels, p, outputs, levels', j, h);
      PairKeepsRecency(levels, p, outputs, i, g, j, h);
    }
    forall f | f in levels'[0] ensures f in levels[0] {
      ReplacedMember(levels, p, outputs, levels', 0, f);
    }
    DistinctSubset(levels[0], levels'[0]);
  }

  lemma PairKeepsRecency(levels: seq<seq<File>>, p: Pick, outputs: seq<File>, i: nat, g: File, j: nat, h: File)
    requires ValidLevels(levels) && Recency(levels) && p.level + 1 < NUM_LEVELS
    requires forall f :: f in p.inputs0 ==> f in levels[p.level]
    requires forall f :: f in p.inputs1 ==> f in levels[p.level + 1]
    requires forall e :: InFiles(outputs, e) ==> InInputs(p, e)
    requires NewerThanOutputs(levels[p.level], p.inputs0, outputs)
    requires i < j < NUM_LEVELS
    requires (g in levels[i] && !Selected(p, i, g)) || (i == p.level + 1 && g in outputs)
    requires (h in levels[j] && !Selected(p, j, h)) || (j == p.level + 1 && h in outputs)
    ensures Newer(g, h)
  {
    if j == p.level + 1 && h in outputs {
      OutputsKeepRecency(levels, p, outputs, h);
    } else if i == p.level + 1 && g in outputs {
      OutputsKeepRecency(levels, p, outputs, g);
    } else {
      assert g in levels[i] && h in levels[j];
    }
  }

  lemma DistinctSubset(files: seq<File>, fewer: seq<File>)
    requires DistinctNumbers(files) && InOrder(fewer) && forall f :: f in fewer ==> f in files
    ensures DistinctNumbers(fewer)
  {
    forall f, g | f in fewer && g in fewer && f.number == g.number ensures f == g {
      var i :| 0 <= i < |files| && files[i] == f;
      var j :| 0 <= j < |files| && files[j] == g;
    }
    StrictlyNumbered(fewer);
  }

  ghost predicate Selected(p: Pick, l: nat, f: File) {
    (l == p.level && f in p.inputs0) || (l == p.level + 1 && f in p.inputs1)
  }

  lemma ReplacedMember(levels: seq<seq<File>>, p: Pick, outputs: seq<File>, levels': seq<seq<File>>, l: nat, g: File)
    requires Replaced(levels, p, outputs, levels') && l < NUM_LEVELS
    ensures g in levels'[l] <==>
            (g in levels[l] && !Selected(p, l, g)) || (l == p.level + 1 && g in outputs)
  {
    assert g in FileSet(levels'[l]) <==> g in levels'[l];
  }

  lemma ReplacedMembers(levels: seq<seq<File>>, p: Pick, outputs: seq<File>, levels': seq<seq<File>>)
    requires Replaced(levels, p, outputs, levels')
    ensures forall l, g :: 0 <= l < NUM_LEVELS ==>
              (g in levels'[l] <==>
               (g in levels[l] && !Selected(p, l, g)) || (l == p.level + 1 && g in outputs))
  {
    forall l, g | 0 <= l < NUM_LEVELS
      ensures g in levels'[l] <==> g in LevelAfter(levels, p, outputs, l)
    {
      assert g in FileSet(levels'[l]) <==> g in levels'[l];
    }
  }

  // ---------- the stored versions ----------

  /** Versions at level `low` or deeper outside the inputs. */
  ghost predicate InRest(levels: seq<seq<File>>, low: nat, p: Pick, e: Entry)
  {
    exists l, f :: low <= l < |levels| && f in levels[l] && e in f.entries && !Selected(p, l, f)
  }

  ghost function Rest(levels: seq<seq<File>>, low: nat, p: Pick): iset<Entry>
  {
    iset e | InRest(levels, low, p, e)
  }

  lemma StoredBefore(levels: seq<seq<File>>, low: nat, p: Pick)
    requires |levels| == NUM_LEVELS && low <= p.level && p.level + 1 < NUM_LEVELS
    requires forall f :: f in p.inputs0 ==> f in levels[p.level]
    requires forall f :: f in p.inputs1 ==> f in levels[p.level + 1]
    ensures forall e :: InLevels(levels, low, e) <==> InRest(levels, low, p, e)
                                                      || InInputs(p, e)
  {
    forall e | InInputs(p, e) ensures InLevels(levels, low, e) {
      if InFiles(p.inputs0, e) {
        assert InFiles(levels[p.level], e);
      } else {
        assert InFiles(levels[p.level + 1], e);
      }
    }
    forall e | InRest(levels, low, p, e) ensures InLevels(levels, low, e) {
      var l, f :| low <= l < |levels| && f in levels[l] && e in f.entries;
      assert InFiles(levels[l], e);
    }
    forall e | InLevels(levels, low, e)
      ensures InRest(levels, low, p, e) || InInputs(p, e)
    {
      var l :| low <= l < |levels| && InFiles(levels[l], e);
      var f :| f in levels[l] && e in f.entries;
    }
  }

  lemma StoredAfter(levels: seq<seq<File>>, low: nat, p: Pick, outputs: seq<File>, levels': seq<seq<File>>)
    requires Replaced(levels, p, outputs, levels') && low <= p.level
    ensures forall e :: InLevels(levels', low, e) <==> InRest(levels, low, p, e)
                                                       || InFiles(outputs, e)
  {
    ReplacedMembers(levels, p, outputs, levels');
    forall e | InRest(levels, low, p, e) ensures InLevels(levels', low, e) {
      var l, f :| low <= l < |levels| && f in levels[l] && e in f.entries && !Selected(p, l, f);
      assert f in levels'[l];
      assert InFiles(levels'[l], e);
    }
    forall e | InFiles(outputs, e) ensures InLevels(levels', low, e) {
      var f :| f in outputs && e in f.entries;
      assert f in levels'[p.level + 1];
      assert InFiles(levels'[p.level + 1], e);
    }
    forall e | InLevels(levels', low, e)
      ensures InRest(levels, low, p, e) || InFiles(outputs, e)
    {
      var l :| low <= l < |levels'| && InFiles(levels'[l], e);
      var f :| f in levels'[l] && e in f.entries;
    }
  }

  /** Outside the inputs nothing is older than an input version of a key no deeper level holds. */
  lemma NothingOlderOutside(levels: seq<seq<File>>, p: Pick, e: Entry, x: Entry)
    requires TreeInv(levels) && ClosedInputs(levels, p)
    requires Closed(levels[p.level + 1], p.inputs1)
    requires InInputs(p, e) && InRest(levels, 0, p, x) && e.key == x.key
    requires BaseLevel(levels, p.level + 2, e.key)
    ensures x.seqno > e.seqno
  {
    hide BaseLevel, IsSetUp, Recency, Closed, MeetingRange, Overlaps;
    InputFacts(levels, p);
    var l, g :| 0 <= l < |levels| && g in levels[l] && x in g.entries && !Selected(p, l, g);
    if l <= p.level {
      NewerThanInput(levels, p, l, g, x, e);
    } else if l == p.level + 1 {
      UnselectedParentIsNewer(levels[p.level + 1], p.inputs1, p.smallest, p.largest, g, x, e, InFiles(p.inputs0, e));
    } else {
      NotBaseLevel(levels, p.level + 2, l, g, x);
    }
  }

  lemma NotBaseLevel(levels: seq<seq<File>>, low: nat, l: nat, g: File, x: Entry)
    requires low <= l < |levels| && g in levels[l] && ValidFiles(levels[l]) && x in g.entries
    ensures !BaseLevel(levels, low, x.key)
  {
    FileBounds(g, x);
    assert Holds(g, x.key);
  }

  lemma UnselectedParentIsNewer(parents: seq<File>, inputs1: seq<File>, smallest: InternalKey, largest: InternalKey,
                                g: File, x: Entry, e: Entry, fromUpper: bool)
    requires ValidFiles(parents) && Closed(parents, inputs1)
    requires inputs1 == MeetingRange(parents, smallest, largest)
    requires g in parents && g !in inputs1 && x in g.entries && x.key == e.key
    requires if fromUpper then smallest.user <= e.key <= largest.user else InFiles(inputs1, e)
    ensures x.seqno > e.seqno
  {
    OverlappingMembers(parents, Some(smallest.user), Some(largest.user));
    FileBounds(g, x);
    assert !fromUpper;
    var f :| f in inputs1 && e in f.entries;
    assert Newer(g, f);
    assert x in Elems(g.entries) && e in Elems(f.entries);
  }
}
