/**
 Concrete levels on which a manual compaction and a flush that runs during it
 get in each other's way: the inputs leave a gap, the memtable is filed into it
 one level down, and the output of the compaction then spans it.
 */
module FlushGap {
  import opened Wrappers
  import opened Keys
  import opened Mvcc
  import opened Cursors
  import opened Versions
  import opened Inputs
  import opened Manifest
  import opened Compactions
  import opened Lsm
  import opened Database
  import opened CompactionLimits
  import SplitKeys

  const FIRST: Entry := Entry(1.0, 2, Put([1]))
  const LAST: Entry := Entry(9.0, 3, Put([9]))
  const STALE: Entry := Entry(5.0, 1, Put([5]))
  const RECENT: Entry := Entry(5.0, 4, Put([6]))

  const DEEP: File := File(30, 10, [STALE])
  const LOW_END: File := File(31, 10, [FIRST])
  const HIGH_END: File := File(32, 10, [LAST])
  const OUTPUT: File := File(33, 20, [FIRST, LAST])
  const FLUSHED: File := File(34, 10, [RECENT])

  const PICK: Pick := Pick(0, [LOW_END, HIGH_END], [], LOW_END.Smallest(), HIGH_END.Largest())

  const AT_START: seq<seq<File>> := [[LOW_END, HIGH_END], [], [DEEP], [], [], [], []]
  const AFTER_FLUSH: seq<seq<File>> := [[LOW_END, HIGH_END], [FLUSHED], [DEEP], [], [], [], []]
  const AFTER_INSTALL: seq<seq<File>> := [[], [OUTPUT, FLUSHED], [DEEP], [], [], [], []]

  lemma FilesAreValid()
    ensures ValidFile(DEEP) && ValidFile(LOW_END) && ValidFile(HIGH_END) && ValidFile(OUTPUT) && ValidFile(FLUSHED)
    ensures IsRange([LOW_END, HIGH_END], LOW_END.Smallest(), HIGH_END.Largest())
  {
    SplitKeys.OneEntryFile(DEEP);
    SplitKeys.OneEntryFile(LOW_END);
    SplitKeys.OneEntryFile(HIGH_END);
    SplitKeys.OneEntryFile(FLUSHED);
    var inputs := [LOW_END, HIGH_END];
    assert inputs[0] == LOW_END && inputs[1] == HIGH_END;
  }

  lemma FilesByLevel()
    ensures forall l :: 0 <= l < NUM_LEVELS ==>
              FileSet(AT_START[l]) == if l == 0 then {LOW_END, HIGH_END} else if l == 2 then {DEEP} else {}
    ensures forall l :: 0 <= l < NUM_LEVELS ==>
              FileSet(AFTER_FLUSH[l]) == if l == 0 then {LOW_END, HIGH_END}
                                         else if l == 1 then {FLUSHED} else if l == 2 then {DEEP} else {}
    ensures forall l :: 0 <= l < NUM_LEVELS ==>
              FileSet(AFTER_INSTALL[l]) == if l == 1 then {OUTPUT, FLUSHED} else if l == 2 then {DEEP} else {}
  {
    assert AT_START[0] == [LOW_END, HIGH_END] && AT_START[2] == [DEEP];
    assert AFTER_FLUSH[0] == [LOW_END, HIGH_END] && AFTER_FLUSH[1] == [FLUSHED] && AFTER_FLUSH[2] == [DEEP];
    assert AFTER_INSTALL[1] == [OUTPUT, FLUSHED] && AFTER_INSTALL[2] == [DEEP];
    assert forall l :: 0 <= l < NUM_LEVELS && l != 0 && l != 2 ==> AT_START[l] == [];
    assert forall l :: 3 <= l < NUM_LEVELS ==> AFTER_FLUSH[l] == [];
    assert forall l :: 0 <= l < NUM_LEVELS && l != 1 && l != 2 ==> AFTER_INSTALL[l] == [];
  }

  lemma AllOfLevel0()
    ensures Overlapping(AT_START[0], None, None) == [LOW_END, HIGH_END]
    ensures ClosedUnderOverlap(AT_START[0], [LOW_END, HIGH_END])
  {
    var files := AT_START[0];
    assert files == [LOW_END, HIGH_END] && files[0] == LOW_END && files[1] == HIGH_END;
    assert OverlappingAmong(files, 0, None, None) == [];
    assert OverlappingAmong(files, 1, None, None) == [LOW_END];
    assert OverlappingAmong(files, 2, None, None) == [LOW_END, HIGH_END];
  }

  /** A manual compaction of the whole of level 0 takes both files, and no file of level 1 meets them. */
  lemma InputsArePicked()
    ensures Picked(AT_START, PICK)
  {
    hide ClosedUnderOverlap, IsRange, ValidFile, Recency, TreeInv;
    FilesAreValid();
    AllOfLevel0();
    StartIsOrdered();
    var inputs := [LOW_END, HIGH_END];
    assert inputs[0] == LOW_END && inputs[1] == HIGH_END && AT_START[0] == inputs;
    assert AT_START[1] == [] && MeetingRange([], LOW_END.Smallest(), HIGH_END.Largest()) == [];
  }

  lemma StartIsOrdered()
    ensures TreeInv(AT_START)
  {
    FilesAreValid();
    FilesByLevel();
    hide IsRange;
    assert forall l, f :: 0 <= l < NUM_LEVELS && f in AT_START[l] ==> f in FileSet(AT_START[l]);
    forall i, j, f, g | 0 <= i < j < NUM_LEVELS && f in AT_START[i] && g in AT_START[j] ensures Newer(f, g) {
      assert f in {LOW_END, HIGH_END} && g == DEEP;
    }
  }

  /** Between the two inputs lies a gap. */
  lemma InputsHaveAGap()
    ensures !Connected([LOW_END, HIGH_END] + [])
  {
    var inputs := [LOW_END, HIGH_END] + [];
    assert inputs == [LOW_END, HIGH_END];
    assert LOW_END in inputs && HIGH_END in inputs;
    assert SomeBelow(inputs, 5.0) && SomeAbove(inputs, 5.0) && !SomeAround(inputs, 5.0);
  }

  /** Nothing there meets the memtable's key down to level 1, but level 2 does. */
  lemma MemtableGoesToLevel1(maxGrandparentBytes: nat)
    requires maxGrandparentBytes >= DEEP.size
    ensures Clear(AT_START[0], 5.0, 5.0) && Clear(AT_START[1], 5.0, 5.0)
    ensures PassesBy(AT_START, 0, 5.0, 5.0, maxGrandparentBytes)
    ensures !PassesBy(AT_START, 1, 5.0, 5.0, maxGrandparentBytes)
  {
    assert AT_START[0] == [LOW_END, HIGH_END] && AT_START[1] == [] && AT_START[2] == [DEEP];
    assert OverlappingAmong([DEEP], 0, Some(5.0), Some(5.0)) == [];
    assert Overlapping(AT_START[2], Some(5.0), Some(5.0)) == [DEEP] && [DEEP][1..] == [];
    assert TotalFileSize([DEEP]) == DEEP.size;
    assert DEEP in AT_START[2] && Overlaps(DEEP, Some(5.0), Some(5.0));
  }

  lemma MemtableIsPlaced()
    ensures PlacedAt(AT_START, 1, FLUSHED, AFTER_FLUSH)
  {
    hide Clear;
    MemtableGoesToLevel1(DEEP.size);
    FilesAreValid();
    FilesByLevel();
    assert AFTER_FLUSH[0] == [LOW_END, HIGH_END] && AFTER_FLUSH[1] == [FLUSHED] && AFTER_FLUSH[2] == [DEEP];
  }

  lemma MergedInputs()
    ensures MergeAll([LOW_END, HIGH_END] + []) == [FIRST, LAST] && IsMerge([FIRST, LAST], PICK)
  {
    var inputs := [LOW_END, HIGH_END];
    assert inputs + [] == inputs && inputs[..1] == [LOW_END] && [LOW_END][..0] == [];
    assert MergeAll([LOW_END]) == Merge([], [FIRST]) == [FIRST];
    assert Merge([FIRST], [LAST]) == [FIRST] + Merge([FIRST][1..], [LAST]);
    assert [FIRST][1..] == [] && Merge([], [LAST]) == [LAST];
    assert LOW_END in inputs && HIGH_END in inputs && LOW_END.entries == [FIRST] && HIGH_END.entries == [LAST];
    assert forall e :: e in [FIRST, LAST] <==> e in LOW_END.entries || e in HIGH_END.entries;
  }

  /** The merge keeps both versions and writes them to one file. */
  lemma MergeIsRewritten()
    ensures Rewritten(AT_START, PICK, [FIRST, LAST], 3, [OUTPUT])
  {
    MergedInputs();
    hide IsMerge, BaseLevel;
    var input := [FIRST, LAST];
    assert input[0] == FIRST && input[1] == LAST;
    assert Kept(input, 0, 3, AT_START, 2) == [];
    assert Kept(input, 1, 3, AT_START, 2) == [FIRST];
    assert Kept(input, 2, 3, AT_START, 2) == [FIRST, LAST];
    assert [OUTPUT][..0] == [] && Flatten([OUTPUT]) == [FIRST, LAST];
  }

  lemma OutputIsInstalled()
    ensures Replaced(AFTER_FLUSH, PICK, [OUTPUT], AFTER_INSTALL)
    ensures !Fits(AFTER_FLUSH[1], [], [OUTPUT]) && !Disjoint(AFTER_INSTALL[1])
  {
    FilesAreValid();
    FilesByLevel();
    assert FileSet([LOW_END, HIGH_END]) == {LOW_END, HIGH_END} && FileSet([]) == {} && FileSet([OUTPUT]) == {OUTPUT};
    assert AFTER_INSTALL[1] == [OUTPUT, FLUSHED] && AFTER_INSTALL[2] == [DEEP];
    assert forall l :: 0 <= l < NUM_LEVELS && l != 1 && l != 2 ==> AFTER_INSTALL[l] == [];
    assert FLUSHED in AFTER_FLUSH[1] && OUTPUT in [OUTPUT] && FLUSHED !in [OUTPUT] && !Separated(FLUSHED, OUTPUT);
    assert AFTER_INSTALL[1][0] == OUTPUT && AFTER_INSTALL[1][1] == FLUSHED;
  }

  lemma InputsAreHarmless(s: iset<Entry>)
    ensures Harmless(s, AT_START, PICK, 3)
  {
    forall x ensures !Unselected(AT_START[0], [LOW_END, HIGH_END], x) {
      assert AT_START[0] == [LOW_END, HIGH_END];
    }
    MergedInputs();
    forall t | InInputs(PICK, t) ensures t.op.Put? {
      assert t in [FIRST, LAST];
    }
  }

  lemma NewestAfterInstall()
    ensures IsNewest(StoredFrom(AFTER_INSTALL, 0), 5.0, 4, RECENT)
  {
    FilesByLevel();
    assert FLUSHED in AFTER_INSTALL[1] && RECENT in FLUSHED.entries && InFiles(AFTER_INSTALL[1], RECENT);
  }

  /**
   Every step is one the code takes, and the inputs are harmless. Still the new
   output and the flushed file overlap: a search of level 1 ends in the output,
   which lacks the key, and level 2 then serves the overwritten value.
   */
  lemma FlushIntoGapHidesWrite(maxGrandparentBytes: nat)
    requires maxGrandparentBytes >= DEEP.size
    ensures Overlapping(AT_START[0], None, None) == [LOW_END, HIGH_END] && !Connected([LOW_END, HIGH_END] + [])
    ensures Picked(AT_START, PICK)
    ensures Harmless(iset{RECENT} + StoredFrom(AT_START, 0), AT_START, PICK, 3)
    ensures Rewritten(AT_START, PICK, MergeAll([LOW_END, HIGH_END] + []), 3, [OUTPUT])
    ensures PlacedAt(AT_START, 1, FLUSHED, AFTER_FLUSH) && Clear(AT_START[0], 5.0, 5.0)
    ensures PassesBy(AT_START, 0, 5.0, 5.0, maxGrandparentBytes)
    ensures !PassesBy(AT_START, 1, 5.0, 5.0, maxGrandparentBytes)
    ensures Replaced(AFTER_FLUSH, PICK, [OUTPUT], AFTER_INSTALL) && !Disjoint(AFTER_INSTALL[1])
    ensures IsNewest(StoredFrom(AFTER_INSTALL, 0), 5.0, 4, RECENT)
    ensures AFTER_INSTALL[1] == [OUTPUT, FLUSHED] && AFTER_INSTALL[2] == [DEEP]
    ensures !Less(OUTPUT.Largest(), LookupKey(5.0, 4)) && !Less(FLUSHED.Largest(), LookupKey(5.0, 4))
    ensures Lookup(OUTPUT.entries, 5.0, 4) == None && Lookup(DEEP.entries, 5.0, 4) == Some(STALE)
  {
    hide *;
    AllOfLevel0();
    InputsHaveAGap();
    InputsArePicked();
    InputsAreHarmless(iset{RECENT} + StoredFrom(AT_START, 0));
    MergedInputs();
    MergeIsRewritten();
    MemtableGoesToLevel1(maxGrandparentBytes);
    MemtableIsPlaced();
    OutputIsInstalled();
    NewestAfterInstall();
    SearchesAfterInstall();
  }

  lemma SearchesAfterInstall()
    ensures AFTER_INSTALL[1] == [OUTPUT, FLUSHED] && AFTER_INSTALL[2] == [DEEP]
    ensures !Less(OUTPUT.Largest(), LookupKey(5.0, 4)) && !Less(FLUSHED.Largest(), LookupKey(5.0, 4))
    ensures Lookup(OUTPUT.entries, 5.0, 4) == None && Lookup(DEEP.entries, 5.0, 4) == Some(STALE)
  {
    var es, key := OUTPUT.entries, LookupKey(5.0, 4);
    assert es[0] == FIRST && es[1] == LAST && es[1..][0] == LAST;
    assert SeekPos(es, key) == 1;
    assert DEEP.entries[0] == STALE && SeekPos(DEEP.entries, key) == 0;
  }
}
