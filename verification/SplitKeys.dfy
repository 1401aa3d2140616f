/**
 Two concrete levels in which one user key spans two files. They show that the
 boundary checks asked of a compaction are needed: without them the code
 returns a stale value, or brings back a deleted one.
 */
module SplitKeys {
  import opened Wrappers
  import opened Keys
  import opened Mvcc
  import opened Versions
  import opened Inputs
  import opened Manifest
  import opened Compactions
  import opened Lsm
  import opened Database
  import opened CompactionLimits

  const OLD: Entry := Entry(4.0, 1, Put([1]))
  const NEW: Entry := Entry(4.0, 2, Put([2]))
  const LEFT: File := File(11, 10, [NEW])
  const RIGHT: File := File(12, 10, [OLD])

  const BEFORE_MOVE: seq<seq<File>> := [[], [LEFT, RIGHT], [], [], [], [], []]
  const AFTER_MOVE: seq<seq<File>> := [[], [RIGHT], [LEFT], [], [], [], []]

  lemma OneEntryFile(f: File)
    requires |f.entries| == 1 && f.entries[0].seqno <= MAX_SEQUENCE_NUMBER
    ensures ValidFile(f) && IsRange([f], f.Smallest(), f.Largest())
  {
    assert [f][0].Smallest() == f.Smallest() && [f][0].Largest() == f.Largest();
  }

  lemma BeforeMoveIsValid()
    ensures Picked(BEFORE_MOVE, MoveOf(1, LEFT)) && !BoundaryClear(BEFORE_MOVE[1], [LEFT])
  {
    OneEntryFile(LEFT);
    OneEntryFile(RIGHT);
    assert BEFORE_MOVE[1][0] == LEFT && BEFORE_MOVE[1][1] == RIGHT;
    assert forall l :: 0 <= l < NUM_LEVELS && l != 1 ==> BEFORE_MOVE[l] == [];
  }

  lemma AfterMove()
    ensures forall l :: 0 <= l < NUM_LEVELS ==> FileSet(BEFORE_MOVE[l]) == if l == 1 then {LEFT, RIGHT} else {}
    ensures forall l :: 0 <= l < NUM_LEVELS ==>
              FileSet(AFTER_MOVE[l]) == if l == 1 then {RIGHT} else if l == 2 then {LEFT} else {}
    ensures Replaced(BEFORE_MOVE, MoveOf(1, LEFT), [LEFT], AFTER_MOVE)
  {
    OneEntryFile(LEFT);
    OneEntryFile(RIGHT);
    assert BEFORE_MOVE[1] == [LEFT, RIGHT] && AFTER_MOVE[1] == [RIGHT] && AFTER_MOVE[2] == [LEFT];
    assert forall l :: 0 <= l < NUM_LEVELS && l != 1 ==> BEFORE_MOVE[l] == [];
    assert forall l :: 0 <= l < NUM_LEVELS && l != 1 && l != 2 ==> AFTER_MOVE[l] == [];
  }

  lemma StoredAfterMove()
    ensures forall e :: InLevels(AFTER_MOVE, 0, e) <==> e == OLD || e == NEW
    ensures forall e :: InFiles(AFTER_MOVE[1], e) <==> e == OLD
  {
    hide Replaced;
    AfterMove();
    assert RIGHT in AFTER_MOVE[1] && LEFT in AFTER_MOVE[2];
    assert OLD in RIGHT.entries && NEW in LEFT.entries;
    assert InFiles(AFTER_MOVE[1], OLD) && InFiles(AFTER_MOVE[2], NEW);
    forall e | InLevels(AFTER_MOVE, 0, e) ensures e == OLD || e == NEW {
      var l :| 0 <= l < |AFTER_MOVE| && InFiles(AFTER_MOVE[l], e);
      var f :| f in AFTER_MOVE[l] && e in f.entries;
      assert f in FileSet(AFTER_MOVE[l]);
    }
    forall e | InFiles(AFTER_MOVE[1], e) ensures e == OLD {
      var f :| f in AFTER_MOVE[1] && e in f.entries;
    }
  }

  /** From a valid tree, moving the left file down makes a lookup at level 1 stop at the overwritten value. */
  lemma MoveServesStaleValue()
    ensures Picked(BEFORE_MOVE, MoveOf(1, LEFT)) && !BoundaryClear(BEFORE_MOVE[1], [LEFT])
    ensures Replaced(BEFORE_MOVE, MoveOf(1, LEFT), [LEFT], AFTER_MOVE)
    ensures IsNewest(Stored(AFTER_MOVE[1]), 4.0, 2, OLD)
    ensures IsNewest(StoredFrom(AFTER_MOVE, 0), 4.0, 2, NEW)
    ensures !Recency(AFTER_MOVE)
  {
    hide Replaced, InFiles, InLevels, Picked, BoundaryClear;
    BeforeMoveIsValid();
    AfterMove();
    StoredAfterMove();
    assert RIGHT in AFTER_MOVE[1] && LEFT in AFTER_MOVE[2];
    assert OLD in Elems(RIGHT.entries) && NEW in Elems(LEFT.entries);
    assert !Newer(RIGHT, LEFT);
  }

  const FRESH: Entry := Entry(2.0, 4, Put([9]))
  const COVERED: Entry := Entry(2.0, 1, Put([8]))
  const MARKER: Entry := Entry(5.0, 3, Delete)
  const DELETED: Entry := Entry(5.0, 2, Put([7]))
  const UPPER: File := File(21, 10, [FRESH])
  const LOWER: File := File(22, 10, [COVERED, MARKER])
  const NEIGHBOUR: File := File(23, 10, [DELETED])
  const SPLIT_PARENT: seq<seq<File>> := [[], [UPPER], [LOWER, NEIGHBOUR], [], [], [], []]
  const PICK: Pick := Pick(1, [UPPER], [LOWER], UPPER.Smallest(), UPPER.Largest())
  const MERGED: seq<Entry> := [FRESH, COVERED, MARKER]

  const OUTPUT: File := File(24, 10, [FRESH])
  const AFTER_MERGE: seq<seq<File>> := [[], [], [OUTPUT, NEIGHBOUR], [], [], [], []]

  lemma SplitParentFiles()
    ensures ValidFile(UPPER) && ValidFile(LOWER) && ValidFile(NEIGHBOUR) && Disjoint(SPLIT_PARENT[2])
    ensures IsRange([UPPER], UPPER.Smallest(), UPPER.Largest())
    ensures MeetingRange(SPLIT_PARENT[2], UPPER.Smallest(), UPPER.Largest()) == [LOWER]
    ensures BoundaryClear(SPLIT_PARENT[1], [UPPER]) && !BoundaryClear(SPLIT_PARENT[2], [LOWER])
  {
    OneEntryFile(UPPER);
    var files := SPLIT_PARENT[2];
    assert files == [LOWER, NEIGHBOUR] && files[0] == LOWER && files[1] == NEIGHBOUR;
    var low, high := Some(UPPER.Smallest().user), Some(UPPER.Largest().user);
    assert OverlappingAmong(files, 0, low, high) == [];
    assert OverlappingAmong(files, 1, low, high) == [LOWER];
    assert OverlappingAmong(files, 2, low, high) == [LOWER];
  }

  lemma SplitParentLevels()
    ensures forall l :: 0 <= l < NUM_LEVELS ==>
              FileSet(SPLIT_PARENT[l]) == if l == 1 then {UPPER} else if l == 2 then {LOWER, NEIGHBOUR} else {}
    ensures forall l :: 0 <= l < NUM_LEVELS ==> FileSet(AFTER_MERGE[l]) == if l == 2 then {OUTPUT, NEIGHBOUR} else {}
  {
    assert SPLIT_PARENT[1] == [UPPER] && SPLIT_PARENT[2] == [LOWER, NEIGHBOUR] && AFTER_MERGE[2] == [OUTPUT, NEIGHBOUR];
    assert forall l :: 0 <= l < NUM_LEVELS && l != 1 && l != 2 ==> SPLIT_PARENT[l] == [];
    assert forall l :: 0 <= l < NUM_LEVELS && l != 2 ==> AFTER_MERGE[l] == [];
  }

  /** The levels are as the database leaves them, and the inputs are those the code picks for the upper file. */
  lemma SplitParentIsValid()
    ensures Picked(SPLIT_PARENT, PICK)
  {
    SplitParentFiles();
    SplitParentLevels();
    assert forall l, f :: 0 <= l < NUM_LEVELS && f in SPLIT_PARENT[l] ==> f in FileSet(SPLIT_PARENT[l]);
    forall i, j, f, g | 0 <= i < j < NUM_LEVELS && f in SPLIT_PARENT[i] && g in SPLIT_PARENT[j] ensures Newer(f, g) {
      assert f == UPPER;
    }
    assert [UPPER][0] == UPPER;
  }

  lemma SplitParentMerge()
    ensures MERGED == MergeAll([UPPER] + [LOWER]) && IsMerge(MERGED, PICK)
  {
    assert [UPPER][..0] == [] && ([UPPER] + [LOWER])[..1] == [UPPER];
    assert MergeAll([UPPER]) == Merge([], [FRESH]) == [FRESH];
    assert MergeAll([UPPER] + [LOWER]) == Merge([FRESH], LOWER.entries);
    assert [FRESH][1..] == [] && Merge([], LOWER.entries) == LOWER.entries;
    assert [FRESH] + LOWER.entries == MERGED;
    assert UPPER in [UPPER] && LOWER in [LOWER];
    assert forall e :: e in MERGED <==> e in UPPER.entries || e in LOWER.entries;
  }

  lemma NothingDeeper(user: UserKey)
    ensures BaseLevel(SPLIT_PARENT, 3, user)
  {
    assert forall l :: 3 <= l < |SPLIT_PARENT| ==> SPLIT_PARENT[l] == [];
  }

  lemma OnlyFreshIsKept()
    ensures Kept(MERGED, |MERGED|, 4, SPLIT_PARENT, 3) == [FRESH]
  {
    NothingDeeper(5.0);
    assert MERGED[0] == FRESH && MERGED[1] == COVERED && MERGED[2] == MARKER;
    assert Shadowed(MERGED, COVERED, 4) by { assert FRESH in MERGED; }
    assert !Shadowed(MERGED, FRESH, 4);
    assert Kept(MERGED, 0, 4, SPLIT_PARENT, 3) == [];
    assert Kept(MERGED, 1, 4, SPLIT_PARENT, 3) == [FRESH];
    assert Kept(MERGED, 2, 4, SPLIT_PARENT, 3) == [FRESH];
  }

  /** The code's merge writes one file ... */
  lemma SplitParentRewritten()
    ensures Rewritten(SPLIT_PARENT, PICK, MERGED, 4, [OUTPUT])
  {
    hide IsMerge, MergeAll, Kept, BaseLevel;
    SplitParentMerge();
    OnlyFreshIsKept();
    assert [OUTPUT][..0] == [] && Flatten([OUTPUT]) == [FRESH];
  }

  /** ... which takes the inputs' place. */
  lemma SplitParentReplaced()
    ensures Replaced(SPLIT_PARENT, PICK, [OUTPUT], AFTER_MERGE)
  {
    SplitParentFiles();
    SplitParentLevels();
    OneEntryFile(OUTPUT);
    assert FileSet([UPPER]) == {UPPER} && FileSet([LOWER]) == {LOWER} && FileSet([OUTPUT]) == {OUTPUT};
    assert AFTER_MERGE[2] == [OUTPUT, NEIGHBOUR] && forall l :: 0 <= l < NUM_LEVELS && l != 2 ==> AFTER_MERGE[l] == [];
  }

  lemma StoredAroundMerge()
    ensures forall e :: InLevels(SPLIT_PARENT, 0, e) <==> e in {FRESH, COVERED, MARKER, DELETED}
    ensures forall e :: InLevels(AFTER_MERGE, 0, e) <==> e in {FRESH, DELETED}
  {
    SplitParentLevels();
    assert UPPER in SPLIT_PARENT[1] && LOWER in SPLIT_PARENT[2] && NEIGHBOUR in SPLIT_PARENT[2];
    assert OUTPUT in AFTER_MERGE[2] && NEIGHBOUR in AFTER_MERGE[2];
    assert FRESH in UPPER.entries && COVERED in LOWER.entries && MARKER in LOWER.entries && DELETED in NEIGHBOUR.entries
    && FRESH in OUTPUT.entries;
    assert InFiles(SPLIT_PARENT[1], FRESH) && InFiles(SPLIT_PARENT[2], COVERED) && InFiles(SPLIT_PARENT[2], MARKER);
    assert InFiles(SPLIT_PARENT[2], DELETED) && InFiles(AFTER_MERGE[2], FRESH) && InFiles(AFTER_MERGE[2], DELETED);
    forall e | InLevels(SPLIT_PARENT, 0, e) ensures e in {FRESH, COVERED, MARKER, DELETED} {
      var l :| 0 <= l < |SPLIT_PARENT| && InFiles(SPLIT_PARENT[l], e);
      var f :| f in SPLIT_PARENT[l] && e in f.entries;
      assert f in FileSet(SPLIT_PARENT[l]);
    }
    forall e | InLevels(AFTER_MERGE, 0, e) ensures e in {FRESH, DELETED} {
      var l :| 0 <= l < |AFTER_MERGE| && InFiles(AFTER_MERGE[l], e);
      var f :| f in AFTER_MERGE[l] && e in f.entries;
      assert f in FileSet(AFTER_MERGE[l]);
    }
  }

  /**
   From a valid tree, with the inputs the code picks, the code's merge drops the
   deletion marker although a neighbour still holds the deleted value: a read
   that found nothing before finds that value in the levels it installs.
   */
  lemma CompactionRevivesDeletedValue()
    ensures Picked(SPLIT_PARENT, PICK)
    ensures Rewritten(SPLIT_PARENT, PICK, MergeAll([UPPER] + [LOWER]), 4, [OUTPUT])
    ensures Replaced(SPLIT_PARENT, PICK, [OUTPUT], AFTER_MERGE)
    ensures IsNewest(StoredFrom(SPLIT_PARENT, 0), 5.0, 4, MARKER) && Outcome(OpOf(Some(MARKER))) == None
    ensures IsNewest(StoredFrom(AFTER_MERGE, 0), 5.0, 4, DELETED) && Outcome(OpOf(Some(DELETED))) == Some([7])
    ensures !SameReads(StoredFrom(SPLIT_PARENT, 0), StoredFrom(AFTER_MERGE, 0), 4)
  {
    hide Picked, Rewritten, Replaced, MergeAll, InLevels;
    SplitParentIsValid();
    SplitParentMerge();
    SplitParentRewritten();
    SplitParentReplaced();
    StoredAroundMerge();
    var s, s' := StoredFrom(SPLIT_PARENT, 0), StoredFrom(AFTER_MERGE, 0);
    assert Answers(s, 5.0, 4, Some(MARKER)) && Answers(s', 5.0, 4, Some(DELETED));
    assert !SameRead(s, s', 5.0, 4);
  }

  /** A newer version of the deleted key, still in the memtable. */
  const LATER: Entry := Entry(5.0, 5, Put([6]))

  /**
   The same merge when the memtable holds a newer version: no reader can notice
   it, but the files alone serve the deleted value, and so does the database if
   a crash takes the end of the log.
   */
  lemma OnlyACrashShowsIt()
    ensures Picked(SPLIT_PARENT, PICK)
    ensures Harmless(iset{LATER} + StoredFrom(SPLIT_PARENT, 0), SPLIT_PARENT, PICK, 5)
    ensures !NoneRevived(StoredFrom(SPLIT_PARENT, 0), SPLIT_PARENT, PICK, 5)
  {
    hide *;
    SplitParentIsValid();
    MemtableHidesMarker();
    MarkerDecides();
  }

  lemma MemtableHidesMarker()
    ensures Harmless(iset{LATER} + StoredFrom(SPLIT_PARENT, 0), SPLIT_PARENT, PICK, 5)
  {
    hide StoredFrom, LeftIn, BaseLevel, Vanishes, MergeAll;
    SplitParentMerge();
    forall x ensures !Unselected(SPLIT_PARENT[1], [UPPER], x) {
      assert SPLIT_PARENT[1] == [UPPER];
    }
    var s := iset{LATER} + StoredFrom(SPLIT_PARENT, 0);
    forall t, x | InInputs(PICK, t) ensures !RevivesIn(s, SPLIT_PARENT, PICK, 5, t, x) {
      assert t in MERGED && LATER in s;
    }
  }

  lemma MarkerDecides()
    ensures !NoneRevived(StoredFrom(SPLIT_PARENT, 0), SPLIT_PARENT, PICK, 5)
  {
    hide BaseLevel, LeftIn, MergeAll, InLevels;
    StoredAroundMerge();
    NothingDeeper(5.0);
    SplitParentMerge();
    LeftBehind();
    assert MARKER in MERGED && InInputs(PICK, MARKER);
    assert RevivesIn(StoredFrom(SPLIT_PARENT, 0), SPLIT_PARENT, PICK, 5, MARKER, DELETED);
  }

  lemma LeftBehind()
    ensures IsNewest(LeftIn(SPLIT_PARENT, PICK), 5.0, 5, DELETED)
  {
    assert SPLIT_PARENT[1] == [UPPER] && SPLIT_PARENT[2] == [LOWER, NEIGHBOUR];
    assert NEIGHBOUR in SPLIT_PARENT[2] && NEIGHBOUR !in [LOWER] && DELETED in NEIGHBOUR.entries;
    assert Unselected(SPLIT_PARENT[2], [LOWER], DELETED);
    assert DELETED in LeftIn(SPLIT_PARENT, PICK);
    forall x | x in LeftIn(SPLIT_PARENT, PICK) ensures x == DELETED {
      assert !Unselected(SPLIT_PARENT[1], [UPPER], x);
      var g :| g in SPLIT_PARENT[2] && g !in [LOWER] && x in g.entries;
      assert g == NEIGHBOUR;
    }
  }
}
