/**
 Choosing the files of a compaction and the level for a flushed memtable
 (db/version_set.cc: SomeFileOverlapsRange, PickLevelForMemTableOutput,
 GetOverlappingInputs, GetRange, SetupOtherInputs).
 A bound of None is the source's NULL: unbounded on that side.
 */
module Inputs {
  import opened Wrappers
  import opened Keys
  import opened Versions

  /** The user-key range of `f` meets [low, high]. */
  predicate Overlaps(f: File, low: Option<UserKey>, high: Option<UserKey>)
  {
    && (low.Some? ==> low.value <= f.Largest().user)
    && (high.Some? ==> f.Smallest().user <= high.value)
  }

  /** The user-key range of `f` lies inside [low, high]. */
  predicate Within(f: File, low: Option<UserKey>, high: Option<UserKey>)
  {
    && (low.Some? ==> low.value <= f.Smallest().user)
    && (high.Some? ==> f.Largest().user <= high.value)
  }

  /** The files that meet a range, in list order. */
  function Overlapping(files: seq<File>, low: Option<UserKey>, high: Option<UserKey>): seq<File>
  {
    OverlappingAmong(files, |files|, low, high)
  }

  /** ... among the first `n` files. */
  function OverlappingAmong(files: seq<File>, n: nat, low: Option<UserKey>, high: Option<UserKey>): seq<File>
    requires n <= |files|
  {
    if n == 0 then []
    else
      var rest := OverlappingAmong(files, n - 1, low, high);
      if Overlaps(files[n - 1], low, high) then rest + [files[n - 1]] else rest
  }

  predicate NoDup(files: seq<File>) { forall i, j :: 0 <= i < j < |files| ==> files[i] != files[j] }

  lemma {:induction false} AmongMembers(files: seq<File>, n: nat, low: Option<UserKey>, high: Option<UserKey>)
    requires ValidFiles(files) && n <= |files|
    ensures ValidFiles(OverlappingAmong(files, n, low, high)) && |OverlappingAmong(files, n, low, high)| <= n
    ensures forall f :: f in OverlappingAmong(files, n, low, high) <==>
                        exists i :: 0 <= i < n && files[i] == f && Overlaps(files[i], low, high)
    ensures NoDup(files) ==> NoDup(OverlappingAmong(files, n, low, high))
  {
    if n > 0 {
      AmongMembers(files, n - 1, low, high);
      if NoDup(files) {
        var rest := OverlappingAmong(files, n - 1, low, high);
        forall i | 0 <= i < |rest| ensures rest[i] != files[n - 1] { assert rest[i] in rest; }
      }
    }
  }

  lemma OverlappingMembers(files: seq<File>, low: Option<UserKey>, high: Option<UserKey>)
    requires ValidFiles(files)
    ensures ValidFiles(Overlapping(files, low, high)) && |Overlapping(files, low, high)| <= |files|
    ensures forall f :: f in Overlapping(files, low, high) <==> f in files && Overlaps(f, low, high)
    ensures NoDup(files) ==> NoDup(Overlapping(files, low, high))
  {
    AmongMembers(files, |files|, low, high);
  }

  lemma AmongStep(files: seq<File>, n: nat, low: Option<UserKey>, high: Option<UserKey>)
    requires ValidFiles(files) && n < |files|
    ensures OverlappingAmong(files, 0, low, high) == []
    ensures OverlappingAmong(files, n + 1, low, high) ==
            OverlappingAmong(files, n, low, high) + if Overlaps(files[n], low, high) then [files[n]] else []
  {
  }

  /** No file straddles an end of the range. */
  predicate RangeClosed(files: seq<File>, low: Option<UserKey>, high: Option<UserKey>)
  {
    forall i :: 0 <= i < |files| && Overlaps(files[i], low, high) ==> Within(files[i], low, high)
  }

  /** [low, high] contains [low', high']. */
  predicate Covers(low: Option<UserKey>, high: Option<UserKey>, low': Option<UserKey>, high': Option<UserKey>) {
    && (low.Some? ==> low'.Some? && low.value <= low'.value)
    && (high.Some? ==> high'.Some? && high'.value <= high.value)
  }

  function CountStartingBelow(files: seq<File>, low: UserKey): nat
  {
    if files == [] then 0
    else CountStartingBelow(files[1..], low) + if files[0].Smallest().user < low then 1 else 0
  }

  function CountEndingAbove(files: seq<File>, high: UserKey): nat
  {
    if files == [] then 0
    else CountEndingAbove(files[1..], high) + if files[0].Largest().user > high then 1 else 0
  }

  /** Files that could still widen the range: the restart loop's measure. */
  function Wideners(files: seq<File>, low: Option<UserKey>, high: Option<UserKey>): nat
  {
    (if low.Some? then CountStartingBelow(files, low.value) else 0)
    + (if high.Some? then CountEndingAbove(files, high.value) else 0)
  }

  lemma {:induction false} FewerStartBelow(files: seq<File>, low: UserKey, low': UserKey)
    requires ValidFiles(files) && low' < low
    ensures CountStartingBelow(files, low') <= CountStartingBelow(files, low)
    ensures (exists f :: f in files && f.Smallest().user == low') ==>
              CountStartingBelow(files, low') < CountStartingBelow(files, low)
  {
    if files != [] {
      FewerStartBelow(files[1..], low, low');
      assert files == [files[0]] + files[1..];
    }
  }

  lemma {:induction false} FewerEndAbove(files: seq<File>, high: UserKey, high': UserKey)
    requires ValidFiles(files) && high < high'
    ensures CountEndingAbove(files, high') <= CountEndingAbove(files, high)
    ensures (exists f :: f in files && f.Largest().user == high') ==>
              CountEndingAbove(files, high') < CountEndingAbove(files, high)
  {
    if files != [] {
      FewerEndAbove(files[1..], high, high');
      assert files == [files[0]] + files[1..];
    }
  }

  /** Every closed range that contains [begin, end] also contains [low, high]. */
  ghost predicate InEveryClosedRange(files: seq<File>, begin: Option<UserKey>, end: Option<UserKey>,
                                     low: Option<UserKey>, high: Option<UserKey>)
  {
    forall l, h :: RangeClosed(files, l, h) && Covers(l, h, begin, end) ==> Covers(l, h, low, high)
  }

  lemma WidenDown(files: seq<File>, begin: Option<UserKey>, end: Option<UserKey>,
                  low: UserKey, high: Option<UserKey>, f: File)
    requires ValidFiles(files) && f in files && Overlaps(f, Some(low), high) && f.Smallest().user < low
    requires InEveryClosedRange(files, begin, end, Some(low), high)
    ensures InEveryClosedRange(files, begin, end, Some(f.Smallest().user), high)
    ensures Wideners(files, Some(f.Smallest().user), high) < Wideners(files, Some(low), high)
  {
    FewerStartBelow(files, low, f.Smallest().user);
    forall l, h | RangeClosed(files, l, h) && Covers(l, h, begin, end)
      ensures Covers(l, h, Some(f.Smallest().user), high)
    {
      assert Covers(l, h, Some(low), high);
      assert Overlaps(f, l, h);
      var i :| 0 <= i < |files| && files[i] == f;
      assert Within(files[i], l, h);
    }
  }

  lemma WidenUp(files: seq<File>, begin: Option<UserKey>, end: Option<UserKey>,
                low: Option<UserKey>, high: UserKey, f: File)
    requires ValidFiles(files) && f in files && Overlaps(f, low, Some(high)) && f.Largest().user > high
    requires InEveryClosedRange(files, begin, end, low, Some(high))
    ensures InEveryClosedRange(files, begin, end, low, Some(f.Largest().user))
    ensures Wideners(files, low, Some(f.Largest().user)) < Wideners(files, low, Some(high))
  {
    FewerEndAbove(files, high, f.Largest().user);
    forall l, h | RangeClosed(files, l, h) && Covers(l, h, begin, end)
      ensures Covers(l, h, low, Some(f.Largest().user))
    {
      assert Covers(l, h, low, Some(high));
      assert Overlaps(f, l, h);
      var i :| 0 <= i < |files| && files[i] == f;
      assert Within(files[i], l, h);
    }
  }

  /** What GetOverlappingInputs returns. */
  ghost predicate IsScan(level: nat, files: seq<File>, begin: Option<UserKey>, end: Option<UserKey>, inputs: seq<File>)
  {
    exists low, high ::
      && inputs == Overlapping(files, low, high) && Covers(low, high, begin, end)
      && InEveryClosedRange(files, begin, end, low, high)
      && (if level > 0 then low == begin && high == end else RangeClosed(files, low, high))
  }

  /**
   All files that meet [begin, end]. At level 0, where files may overlap each
   other, the range is widened and the scan restarted until no file straddles
   its ends; the ghost results name the final range, which is the least closed
   range containing the one asked for.
   */
  method GetOverlappingInputs(level: nat, files: seq<File>, begin: Option<UserKey>, end: Option<UserKey>)
    returns (inputs: seq<File>, ghost low: Option<UserKey>, ghost high: Option<UserKey>)
    requires ValidFiles(files)
    ensures inputs == Overlapping(files, low, high) && Covers(low, high, begin, end)
    ensures level > 0 ==> low == begin && high == end
    ensures level == 0 ==> RangeClosed(files, low, high)
    ensures InEveryClosedRange(files, begin, end, low, high)
    ensures IsScan(level, files, begin, end, inputs)
  {
    inputs := [];
    var userBegin, userEnd := begin, end;
    var i := 0;
    while i < |files|
      invariant 0 <= i <= |files|
      invariant inputs == OverlappingAmong(files, i, userBegin, userEnd)
      invariant userBegin.Some? == begin.Some? && userEnd.Some? == end.Some?
      invariant Covers(userBegin, userEnd, begin, end)
      invariant level > 0 ==> userBegin == begin && userEnd == end
      invariant level == 0 ==>
                  forall j :: 0 <= j < i && Overlaps(files[j], userBegin, userEnd) ==>
                    Within(files[j], userBegin, userEnd)
      invariant InEveryClosedRange(files, begin, end, userBegin, userEnd)
      decreases Wideners(files, userBegin, userEnd), |files| - i
    {
      var f := files[i];
      AmongStep(files, i, userBegin, userEnd);
      i := i + 1;
      var fileStart, fileLimit := f.Smallest().user, f.Largest().user;
      if begin.Some? && fileLimit < userBegin.value {
        // completely before the range
      } else if end.Some? && fileStart > userEnd.value {
        // completely after the range
      } else {
        inputs := inputs + [f];
        if level == 0 {
          if begin.Some? && fileStart < userBegin.value {
            WidenDown(files, begin, end, userBegin.value, userEnd, f);
            userBegin := Some(fileStart);
            inputs := [];
            i := 0;
          } else if end.Some? && fileLimit > userEnd.value {
            WidenUp(files, begin, end, userBegin, userEnd.value, f);
            userEnd := Some(fileLimit);
            inputs := [];
            i := 0;
          }
        }
      }
    }
    low, high := userBegin, userEnd;
  }

  /** Whether some file of a level meets the range; levels above 0 are searched, level 0 is scanned. */
  method SomeFileOverlapsRange(disjointSorted: bool, files: seq<File>, smallest: Option<UserKey>,
                               largest: Option<UserKey>)
    returns (r: bool)
    requires ValidFiles(files) && (disjointSorted ==> Disjoint(files))
    ensures r <==> exists f :: f in files && Overlaps(f, smallest, largest)
  {
    if !disjointSorted {
      for i := 0 to |files|
        invariant forall j :: 0 <= j < i ==> !Overlaps(files[j], smallest, largest)
      {
        var f := files[i];
        if (smallest.Some? && smallest.value > f.Largest().user)
        || (largest.Some? && largest.value < f.Smallest().user) {
          // no overlap
        } else {
          assert f in files && Overlaps(f, smallest, largest);
          return true;
        }
      }
      return false;
    }
    var index := 0;
    if smallest.Some? {
      index := FindFile(files, LookupKey(smallest.value, MAX_SEQUENCE_NUMBER));
    }
    FirstCandidateDecides(files, smallest, largest, index);
    if index >= |files| {
      return false;
    }
    r := !(largest.Some? && largest.value < files[index].Smallest().user);
  }

  lemma FirstCandidateDecides(files: seq<File>, smallest: Option<UserKey>, largest: Option<UserKey>, index: nat)
    requires ValidFiles(files) && Disjoint(files) && index <= |files|
    requires smallest.None? ==> index == 0
    requires smallest.Some? ==>
               var key := LookupKey(smallest.value, MAX_SEQUENCE_NUMBER);
               && (forall i :: 0 <= i < index ==> Less(files[i].Largest(), key))
               && (forall i :: index <= i < |files| ==> !Less(files[i].Largest(), key))
    ensures (exists f :: f in files && Overlaps(f, smallest, largest)) <==>
            index < |files| && !(largest.Some? && largest.value < files[index].Smallest().user)
  {
    forall i | 0 <= i < |files| && Overlaps(files[i], smallest, largest)
      ensures index <= i && files[index].Smallest().user <= files[i].Smallest().user
    {
      var last := files[i].entries[|files[i].entries| - 1];
      assert last in files[i].entries;
      if index < i {
        assert Less(files[index].Largest(), files[i].Smallest());
        FileBounds(files[index], files[index].entries[0]);
      }
    }
    if index < |files| {
      assert files[index] in files;
      var last := files[index].entries[|files[index].entries| - 1];
      assert last in files[index].entries;
    }
  }

  function TotalFileSize(files: seq<File>): nat {
    if files == [] then 0 else files[0].size + TotalFileSize(files[1..])
  }

  /** No file meets the user-key range. */
  ghost predicate Clear(files: seq<File>, smallest: UserKey, largest: UserKey) {
    !exists f :: f in files && Overlaps(f, Some(smallest), Some(largest))
  }

  const MAX_MEM_COMPACT_LEVEL: nat := 2

  /** Level `l` is passed by when level l+1 is clear and merging into l+2 later would not cost too much. */
  ghost predicate PassesBy(levels: seq<seq<File>>, l: nat, smallest: UserKey, largest: UserKey,
                           maxGrandparentBytes: nat)
    requires l + 2 < |levels|
  {
    && Clear(levels[l + 1], smallest, largest)
    && TotalFileSize(Overlapping(levels[l + 2], Some(smallest), Some(largest))) <= maxGrandparentBytes
  }

  /** The deepest level down to the limit, all of whose predecessors are passed by; level 0 if a file there is met. */
  ghost predicate IsMemTableLevel(levels: seq<seq<File>>, smallest: UserKey, largest: UserKey, maxGrandparentBytes: nat,
                                  level: nat)
    requires |levels| == NUM_LEVELS
  {
    && level <= MAX_MEM_COMPACT_LEVEL
    && (level > 0 ==> forall l :: 0 <= l <= level ==> Clear(levels[l], smallest, largest))
    && (!Clear(levels[0], smallest, largest) ==> level == 0)
    && (forall l :: 0 <= l < level ==> PassesBy(levels, l, smallest, largest, maxGrandparentBytes))
    && (Clear(levels[0], smallest, largest) && level < MAX_MEM_COMPACT_LEVEL ==>
          !PassesBy(levels, level, smallest, largest, maxGrandparentBytes))
  }

  /** How deep a flushed memtable is placed: as deep as it may, but never past a file that meets its range. */
  method PickLevelForMemTableOutput(levels: seq<seq<File>>, smallest: UserKey, largest: UserKey,
                                    maxGrandparentBytes: nat)
    returns (level: nat)
    requires ValidLevels(levels)
    ensures IsMemTableLevel(levels, smallest, largest, maxGrandparentBytes, level)
  {
    level := 0;
    var overlap := SomeFileOverlapsRange(false, levels[0], Some(smallest), Some(largest));
    if !overlap {
      while level < MAX_MEM_COMPACT_LEVEL
        invariant level <= MAX_MEM_COMPACT_LEVEL
        invariant forall l :: 0 <= l <= level ==> Clear(levels[l], smallest, largest)
        invariant forall l :: 0 <= l < level ==> PassesBy(levels, l, smallest, largest, maxGrandparentBytes)
      {
        overlap := SomeFileOverlapsRange(true, levels[level + 1], Some(smallest), Some(largest));
        if overlap {
          break;
        }
        if level + 2 < NUM_LEVELS {
          var overlaps, _, _ := GetOverlappingInputs(level + 2, levels[level + 2], Some(smallest), Some(largest));
          if TotalFileSize(overlaps) > maxGrandparentBytes {
            break;
          }
        }
        level := level + 1;
      }
    }
  }

  /** [smallest, largest] is the tightest internal-key range covering `inputs`. */
  ghost predicate IsRange(inputs: seq<File>, smallest: InternalKey, largest: InternalKey)
  {
    && (forall i :: 0 <= i < |inputs| ==> !Less(inputs[i].Smallest(), smallest) && !Less(largest, inputs[i].Largest()))
    && (exists i :: 0 <= i < |inputs| && inputs[i].Smallest() == smallest)
    && (exists i :: 0 <= i < |inputs| && inputs[i].Largest() == largest)
  }

  method GetRange(inputs: seq<File>) returns (smallest: InternalKey, largest: InternalKey)
    requires ValidFiles(inputs) && inputs != []
    ensures IsRange(inputs, smallest, largest)
  {
    smallest, largest := InternalKey(0.0, 0), InternalKey(0.0, 0);
    for i := 0 to |inputs|
      invariant i > 0 ==> forall j :: 0 <= j < i ==> !Less(inputs[j].Smallest(), smallest)
                                                     && !Less(largest, inputs[j].Largest())
      invariant i > 0 ==> exists j :: 0 <= j < i && inputs[j].Smallest() == smallest
      invariant i > 0 ==> exists j :: 0 <= j < i && inputs[j].Largest() == largest
    {
      var f := inputs[i];
      if i == 0 {
        smallest, largest := f.Smallest(), f.Largest();
      } else {
        if Less(f.Smallest(), smallest) {
          smallest := f.Smallest();
        }
        if Less(largest, f.Largest()) {
          largest := f.Largest();
        }
      }
    }
  }

  // ---------- the inputs of a compaction ----------

  function MeetingRange(files: seq<File>, smallest: InternalKey, largest: InternalKey): seq<File>
  {
    Overlapping(files, Some(smallest.user), Some(largest.user))
  }

  /** No file outside `inputs` meets their range: what overlapping level-0 files need. */
  ghost predicate ClosedUnderOverlap(files: seq<File>, inputs: seq<File>)
  {
    forall smallest, largest, f :: IsRange(inputs, smallest, largest) && f in files && f !in inputs ==>
      !Overlaps(f, Some(smallest.user), Some(largest.user))
  }

  ghost predicate Selects(files: seq<File>, inputs: seq<File>) {
    inputs != [] && NoDup(inputs) && forall f :: f in inputs ==> f in files
  }

  lemma SelectedAreValid(files: seq<File>, inputs: seq<File>)
    requires ValidFiles(files) && Selects(files, inputs)
    ensures ValidFiles(inputs)
  {
    forall i | 0 <= i < |inputs| ensures ValidFile(inputs[i]) { assert inputs[i] in inputs; }
  }

  lemma RangesAgree(inputs: seq<File>, s: InternalKey, l: InternalKey, s': InternalKey, l': InternalKey)
    requires ValidFiles(inputs) && IsRange(inputs, s, l) && IsRange(inputs, s', l')
    ensures s.user == s'.user && l.user == l'.user
  {
  }

  lemma RangeOrdered(inputs: seq<File>, s: InternalKey, l: InternalKey)
    requires ValidFiles(inputs) && IsRange(inputs, s, l)
    ensures forall f :: f in inputs ==> Within(f, Some(s.user), Some(l.user)) && f.Smallest().user <= f.Largest().user
  {
    forall f | f in inputs ensures Within(f, Some(s.user), Some(l.user)) && f.Smallest().user <= f.Largest().user {
      var i :| 0 <= i < |inputs| && inputs[i] == f;
      FileBounds(f, f.entries[0]);
    }
  }

  /** A wider selection has a wider range. */
  lemma WiderRange(inputs: seq<File>, wider: seq<File>, s: InternalKey, l: InternalKey, s': InternalKey,
                   l': InternalKey)
    requires ValidFiles(inputs) && ValidFiles(wider) && forall f :: f in inputs ==> f in wider
    requires IsRange(inputs, s, l) && IsRange(wider, s', l')
    ensures s'.user <= s.user && l.user <= l'.user
  {
    RangeOrdered(wider, s', l');
    var i :| 0 <= i < |inputs| && inputs[i].Smallest() == s;
    var j :| 0 <= j < |inputs| && inputs[j].Largest() == l;
    assert inputs[i] in inputs && inputs[j] in inputs;
  }

  /** Widening the range and still meeting equally many files means meeting the same files. */
  lemma {:induction false} SameCountSameFiles(files: seq<File>, n: nat, low: UserKey, high: UserKey, low': UserKey,
                                              high': UserKey)
    requires ValidFiles(files) && n <= |files| && low' <= low && high <= high'
    ensures var narrow, wide := OverlappingAmong(files, n, Some(low), Some(high)),
            OverlappingAmong(files, n, Some(low'), Some(high'));
            |narrow| <= |wide| && (|narrow| == |wide| ==> narrow == wide)
  {
    if n > 0 {
      SameCountSameFiles(files, n - 1, low, high, low', high');
    }
  }

  /** Level-0 inputs returned by the widening scan leave out no file that meets their range. */
  lemma ScanIsClosed(files: seq<File>, inputs: seq<File>, low: Option<UserKey>, high: Option<UserKey>)
    requires ValidFiles(files)
    requires inputs == Overlapping(files, low, high) && RangeClosed(files, low, high)
    ensures ClosedUnderOverlap(files, inputs)
  {
    OverlappingMembers(files, low, high);
    forall smallest, largest, f | IsRange(inputs, smallest, largest) && f in files && f !in inputs
      ensures !Overlaps(f, Some(smallest.user), Some(largest.user))
    {
      ClosedRangeCovers(files, inputs, low, high, smallest, largest);
      assert !Overlaps(f, low, high);
    }
  }

  lemma ClosedRangeCovers(files: seq<File>, inputs: seq<File>, low: Option<UserKey>, high: Option<UserKey>,
                          smallest: InternalKey, largest: InternalKey)
    requires RangeClosed(files, low, high) && IsRange(inputs, smallest, largest)
    requires forall f :: f in inputs ==> f in files && Overlaps(f, low, high)
    ensures Covers(low, high, Some(smallest.user), Some(largest.user))
  {
    var i :| 0 <= i < |inputs| && inputs[i].Smallest() == smallest;
    var j :| 0 <= j < |inputs| && inputs[j].Largest() == largest;
    assert inputs[i] in inputs && inputs[j] in inputs;
    assert Within(inputs[i], low, high) && Within(inputs[j], low, high);
  }

  /** What a compaction of `level` may merge: `files`, `parents` are that level and the next. */
  ghost predicate GoodInputs(level: nat, files: seq<File>, parents: seq<File>,
                             inputs0: seq<File>, inputs1: seq<File>, smallest: InternalKey, largest: InternalKey)
  {
    && Selects(files, inputs0) && ValidFiles(inputs0) && IsRange(inputs0, smallest, largest)
    && inputs1 == MeetingRange(parents, smallest, largest)
    && (level == 0 ==> ClosedUnderOverlap(files, inputs0))
  }

  lemma GrowthIsGood(level: nat, files: seq<File>, parents: seq<File>,
                     inputs0: seq<File>, inputs1: seq<File>, smallest: InternalKey, largest: InternalKey,
                     expanded0: seq<File>, expanded1: seq<File>, start: InternalKey, limit: InternalKey)
    requires ValidFiles(files) && ValidFiles(parents) && ValidFiles(inputs0) && ValidFiles(expanded0)
    requires IsRange(inputs0, smallest, largest) && inputs1 == MeetingRange(parents, smallest, largest)
    requires IsRange(expanded0, start, limit) && expanded1 == MeetingRange(parents, start, limit)
    requires Selects(files, expanded0) && forall f :: f in inputs0 ==> f in expanded0
    requires level == 0 ==> ClosedUnderOverlap(files, expanded0)
    requires |expanded1| == |inputs1|
    ensures GoodInputs(level, files, parents, expanded0, inputs1, start, limit)
  {
    WiderRange(inputs0, expanded0, smallest, largest, start, limit);
    SameCountSameFiles(parents, |parents|, smallest.user, largest.user, start.user, limit.user);
  }

  // ---------- gaps between the inputs ----------

  ghost predicate SomeBelow(files: seq<File>, key: UserKey) { exists f :: f in files && f.Largest().user < key }

  ghost predicate SomeAbove(files: seq<File>, key: UserKey) { exists f :: f in files && key < f.Smallest().user }

  ghost predicate SomeAround(files: seq<File>, key: UserKey) {
    exists f :: f in files && Overlaps(f, Some(key), Some(key))
  }

  /** The files leave no gap: a key with files on both sides of it lies in the range of one of them. */
  ghost predicate Connected(files: seq<File>) {
    forall key :: SomeBelow(files, key) && SomeAbove(files, key) ==> SomeAround(files, key)
  }

  lemma SingleIsConnected(f: File)
    requires ValidFile(f)
    ensures Connected([f])
  {
    FileBounds(f, f.entries[0]);
  }

  lemma SameFilesConnected(files: seq<File>, files': seq<File>)
    requires Connected(files) && forall f :: f in files <==> f in files'
    ensures Connected(files')
  {
    forall key | SomeBelow(files', key) && SomeAbove(files', key) ensures SomeAround(files', key) {
      assert SomeBelow(files, key) && SomeAbove(files, key);
    }
  }

  /**
   Adding every file that meets the range of connected files leaves no gap, also when
   the range is widened at level 0.
   */
  lemma ScanIsConnected(level: nat, files: seq<File>, seed: seq<File>, smallest: InternalKey, largest: InternalKey,
                        wide: seq<File>)
    requires ValidFiles(files) && ValidFiles(seed) && Connected(seed) && IsRange(seed, smallest, largest)
    requires IsScan(level, files, Some(smallest.user), Some(largest.user), wide)
    ensures Connected(seed + wide)
  {
    RangeOrdered(seed, smallest, largest);
    forall key | SomeBelow(seed + wide, key) && SomeAbove(seed + wide, key) ensures SomeAround(seed + wide, key) {
      if !SomeAround(seed + wide, key) {
        assert !SomeAround(seed, key) by { assert forall f :: f in seed ==> f in seed + wide; }
        if smallest.user <= key <= largest.user {
          InsideConnected(seed, smallest, largest, key);
        } else if key < smallest.user {
          NothingBeyondBelow(level, files, seed, smallest, largest, wide, key);
        } else {
          NothingBeyondAbove(level, files, seed, smallest, largest, wide, key);
        }
      }
    }
  }

  lemma InsideConnected(seed: seq<File>, smallest: InternalKey, largest: InternalKey, key: UserKey)
    requires ValidFiles(seed) && Connected(seed) && IsRange(seed, smallest, largest)
    requires smallest.user <= key <= largest.user
    ensures SomeAround(seed, key)
  {
    var i :| 0 <= i < |seed| && seed[i].Smallest() == smallest;
    var j :| 0 <= j < |seed| && seed[j].Largest() == largest;
    assert seed[i] in seed && seed[j] in seed;
    if !SomeAround(seed, key) {
      assert !Overlaps(seed[i], Some(key), Some(key)) && !Overlaps(seed[j], Some(key), Some(key));
      assert SomeBelow(seed, key) && SomeAbove(seed, key);
    }
  }

  lemma NothingBeyondBelow(level: nat, files: seq<File>, seed: seq<File>, smallest: InternalKey, largest: InternalKey,
                           wide: seq<File>, key: UserKey)
    requires ValidFiles(files) && ValidFiles(seed) && IsRange(seed, smallest, largest) && key < smallest.user
    requires IsScan(level, files, Some(smallest.user), Some(largest.user), wide) && !SomeAround(seed + wide, key)
    ensures !SomeBelow(seed + wide, key)
  {
    var low, high :| wide == Overlapping(files, low, high) && Covers(low, high, Some(smallest.user), Some(largest.user))
                     && InEveryClosedRange(files, Some(smallest.user), Some(largest.user), low, high)
                     && (if level > 0 then low == Some(smallest.user)
                                           && high == Some(largest.user) else RangeClosed(files, low, high));
    OverlappingMembers(files, low, high);
    RangeOrdered(seed, smallest, largest);
    forall f | f in seed + wide ensures f.Largest().user >= key {
      FileBounds(f, f.entries[0]);
      if f.Largest().user < key && f in wide {
        forall i | 0 <= i < |files| && Overlaps(files[i], Some(key), high) ensures Within(files[i], Some(key), high) {
          StaysOnSide(files, files[i], low, high, f, seed, wide, key);
        }
        assert RangeClosed(files, Some(key), high);
      }
    }
  }

  lemma StaysOnSide(files: seq<File>, g: File, low: Option<UserKey>, high: Option<UserKey>, f: File, seed: seq<File>,
                    wide: seq<File>, key: UserKey)
    requires ValidFiles(files) && g in files && RangeClosed(files, low, high) && Overlaps(g, Some(key), high)
    requires f in wide && f.Largest().user < key && !SomeAround(seed + wide, key)
    requires forall h :: h in wide <==> h in files && Overlaps(h, low, high)
    ensures Within(g, Some(key), high)
  {
    var i :| 0 <= i < |files| && files[i] == g;
    assert Overlaps(g, low, high);
    assert g in seed + wide;
    assert !Overlaps(g, Some(key), Some(key));
  }

  lemma NothingBeyondAbove(level: nat, files: seq<File>, seed: seq<File>, smallest: InternalKey, largest: InternalKey,
                           wide: seq<File>, key: UserKey)
    requires ValidFiles(files) && ValidFiles(seed) && IsRange(seed, smallest, largest) && key > largest.user
    requires IsScan(level, files, Some(smallest.user), Some(largest.user), wide) && !SomeAround(seed + wide, key)
    ensures !SomeAbove(seed + wide, key)
  {
    var low, high :| wide == Overlapping(files, low, high) && Covers(low, high, Some(smallest.user), Some(largest.user))
                     && InEveryClosedRange(files, Some(smallest.user), Some(largest.user), low, high)
                     && (if level > 0 then low == Some(smallest.user)
                                           && high == Some(largest.user) else RangeClosed(files, low, high));
    OverlappingMembers(files, low, high);
    RangeOrdered(seed, smallest, largest);
    forall f | f in seed + wide ensures f.Smallest().user <= key {
      FileBounds(f, f.entries[0]);
      if key < f.Smallest().user && f in wide {
        forall i | 0 <= i < |files| && Overlaps(files[i], low, Some(key)) ensures Within(files[i], low, Some(key)) {
          StaysBelow(files, files[i], low, high, f, seed, wide, key);
        }
        assert RangeClosed(files, low, Some(key));
      }
    }
  }

  lemma StaysBelow(files: seq<File>, g: File, low: Option<UserKey>, high: Option<UserKey>, f: File, seed: seq<File>,
                   wide: seq<File>, key: UserKey)
    requires ValidFiles(files) && g in files && RangeClosed(files, low, high) && Overlaps(g, low, Some(key))
    requires f in wide && key < f.Smallest().user && !SomeAround(seed + wide, key)
    requires forall h :: h in wide <==> h in files && Overlaps(h, low, high)
    ensures Within(g, low, Some(key))
  {
    var i :| 0 <= i < |files| && files[i] == g;
    assert Overlaps(g, low, high);
    assert g in seed + wide;
    assert !Overlaps(g, Some(key), Some(key));
  }

  lemma ParentsConnected(level: nat, parents: seq<File>, picked: seq<File>, smallest: InternalKey, largest: InternalKey,
                         inputs1: seq<File>)
    requires ValidFiles(parents) && ValidFiles(picked) && Connected(picked) && IsRange(picked, smallest, largest)
    requires inputs1 == MeetingRange(parents, smallest, largest)
    ensures Connected(picked + inputs1)
  {
    assert IsScan(level + 1, parents, Some(smallest.user), Some(largest.user), inputs1) by {
      assert InEveryClosedRange(parents, Some(smallest.user), Some(largest.user), Some(smallest.user),
                                Some(largest.user));
    }
    ScanIsConnected(level + 1, parents, picked, smallest, largest, inputs1);
  }

  lemma GrowthConnected(level: nat, files: seq<File>, inputs0: seq<File>, inputs1: seq<File>, allStart: InternalKey,
                        allLimit: InternalKey, expanded0: seq<File>)
    requires ValidFiles(files) && ValidFiles(inputs0) && ValidFiles(inputs1)
    requires Connected(inputs0 + inputs1) && IsRange(inputs0 + inputs1, allStart, allLimit)
    requires IsScan(level, files, Some(allStart.user), Some(allLimit.user), expanded0)
    requires forall f :: f in inputs0 ==> f in expanded0
    ensures Connected(expanded0 + inputs1)
  {
    ScanIsConnected(level, files, inputs0 + inputs1, allStart, allLimit, expanded0);
    SameFilesConnected(inputs0 + inputs1 + expanded0, expanded0 + inputs1);
  }

  /** Whether the wider selection is taken: it has more files, stays small and brings in no further file of level+1. */
  ghost predicate Accepted(parents: seq<File>, inputs0: seq<File>, inputs1: seq<File>, expanded0: seq<File>,
                           byteLimit: nat)
  {
    && |expanded0| > |inputs0| && TotalFileSize(inputs1) + TotalFileSize(expanded0) < byteLimit
    && forall s, l :: IsRange(expanded0, s, l) ==> |MeetingRange(parents, s, l)| == |inputs1|
  }

  lemma NotAccepted(parents: seq<File>, inputs0: seq<File>, inputs1: seq<File>, byteLimit: nat)
    ensures forall expanded0 :: Accepted(parents, inputs0, inputs1, expanded0, byteLimit) ==>
              |expanded0| > |inputs0| && TotalFileSize(inputs1) + TotalFileSize(expanded0) < byteLimit
  {
  }

  /** Its range is unique, so one count decides. */
  lemma AcceptedExactly(parents: seq<File>, inputs0: seq<File>, inputs1: seq<File>, expanded0: seq<File>,
                        byteLimit: nat, start: InternalKey, limit: InternalKey, expanded1: seq<File>)
    requires ValidFiles(expanded0) && IsRange(expanded0, start, limit)
    requires expanded1 == MeetingRange(parents, start, limit)
    ensures Accepted(parents, inputs0, inputs1, expanded0, byteLimit) <==>
            |expanded0| > |inputs0| && TotalFileSize(inputs1) + TotalFileSize(expanded0) < byteLimit
            && |expanded1| == |inputs1|
  {
    hide IsRange, Overlapping, ValidFile;
    forall s, l | IsRange(expanded0, s, l) ensures MeetingRange(parents, s, l) == expanded1 {
      RangesAgree(expanded0, s, l, start, limit);
    }
  }

  /** Adds files of `level` when that brings in no further file of level+1. */
  method GrowInputs(level: nat, files: seq<File>, parents: seq<File>, inputs0: seq<File>, inputs1: seq<File>,
                    smallest: InternalKey, largest: InternalKey, byteLimit: nat)
    returns (grown0: seq<File>, newStart: InternalKey, newLimit: InternalKey, ghost expanded0: seq<File>)
    requires ValidFiles(files) && NoDup(files) && ValidFiles(parents) && ValidFiles(inputs1)
    requires GoodInputs(level, files, parents, inputs0, inputs1, smallest, largest)
    ensures GoodInputs(level, files, parents, grown0, inputs1, newStart, newLimit)
    ensures forall f :: f in inputs0 ==> f in grown0
    ensures forall s, l :: IsRange(inputs0 + inputs1, s, l) ==>
              IsScan(level, files, Some(s.user), Some(l.user), expanded0)
    ensures grown0 == if Accepted(parents, inputs0, inputs1, expanded0, byteLimit) then expanded0 else inputs0
    ensures Connected(inputs0 + inputs1) ==> Connected(grown0 + inputs1)
  {
    hide Connected, IsScan, InEveryClosedRange, ClosedUnderOverlap, RangeClosed, Accepted;
    NotAccepted(parents, inputs0, inputs1, byteLimit);
    grown0, newStart, newLimit := inputs0, smallest, largest;
    var allStart, allLimit := GetRange(inputs0 + inputs1);
    var expanded, lo, hi := GetOverlappingInputs(level, files, Some(allStart.user), Some(allLimit.user));
    expanded0 := expanded;
    forall s, l | IsRange(inputs0 + inputs1, s, l) ensures IsScan(level, files, Some(s.user), Some(l.user), expanded0) {
      RangesAgree(inputs0 + inputs1, s, l, allStart, allLimit);
    }
    GrowthIsWider(files, inputs0, inputs1, expanded0, allStart, allLimit, lo, hi);
    if Connected(inputs0 + inputs1) {
      GrowthConnected(level, files, inputs0, inputs1, allStart, allLimit, expanded0);
    }
    SelectedAreValid(files, expanded);
    if |expanded| > |inputs0| && TotalFileSize(inputs1) + TotalFileSize(expanded) < byteLimit {
      var start, limit := GetRange(expanded);
      var expanded1, _, _ := GetOverlappingInputs(level + 1, parents, Some(start.user), Some(limit.user));
      AcceptedExactly(parents, inputs0, inputs1, expanded, byteLimit, start, limit, expanded1);
      if |expanded1| == |inputs1| {
        if level == 0 {
          ScanIsClosed(files, expanded, lo, hi);
        }
        GrowthIsGood(level, files, parents, inputs0, inputs1, smallest, largest, expanded, expanded1, start, limit);
        grown0, newStart, newLimit := expanded, start, limit;
      }
    }
  }

  /**
   Completes a compaction of `picked`: the files of level+1 that meet its range,
   and more files of `level` when that brings in no further file of level+1.
   `smallest` and `largest` are the range recorded as the new compaction pointer.
   */
  method SetupOtherInputs(level: nat, files: seq<File>, parents: seq<File>, grandparentFiles: seq<File>,
                          picked: seq<File>, byteLimit: nat)
    returns (inputs0: seq<File>, inputs1: seq<File>, grandparents: seq<File>, smallest: InternalKey,
             largest: InternalKey)
    requires ValidFiles(files) && NoDup(files) && ValidFiles(parents) && ValidFiles(grandparentFiles)
    requires Selects(files, picked) && ValidFiles(picked)
    requires level == 0 ==> ClosedUnderOverlap(files, picked)
    ensures GoodInputs(level, files, parents, inputs0, inputs1, smallest, largest)
    ensures forall f :: f in picked ==> f in inputs0
    ensures forall s, l :: IsRange(picked, s, l) ==> inputs1 == MeetingRange(parents, s, l)
    ensures inputs1 == [] ==> inputs0 == picked
    ensures Connected(picked) ==> Connected(inputs0 + inputs1)
    ensures forall s, l :: IsRange(inputs0 + inputs1, s, l) ==> grandparents == MeetingRange(grandparentFiles, s, l)
  {
    hide IsScan, Accepted, ClosedUnderOverlap, IsRange, InEveryClosedRange, RangeClosed, ValidFile, Connected;
    inputs0 := picked;
    smallest, largest := GetRange(inputs0);
    ghost var low, high;
    inputs1, low, high := GetOverlappingInputs(level + 1, parents, Some(smallest.user), Some(largest.user));
    OverlappingMembers(parents, low, high);
    forall s, l | IsRange(picked, s, l) ensures inputs1 == MeetingRange(parents, s, l) {
      RangesAgree(picked, s, l, smallest, largest);
    }
    if Connected(picked) {
      ParentsConnected(level, parents, picked, smallest, largest, inputs1);
    }
    if inputs1 != [] {
      ghost var expanded0;
      inputs0, smallest, largest,
      expanded0 := GrowInputs(level, files, parents, inputs0, inputs1, smallest, largest, byteLimit);
    }
    var allStart, allLimit := GetRange(inputs0 + inputs1);
    grandparents, low,
    high := GetOverlappingInputs(level + 2, grandparentFiles, Some(allStart.user), Some(allLimit.user));
    forall s, l | IsRange(inputs0 + inputs1, s, l) ensures grandparents == MeetingRange(grandparentFiles, s, l) {
      RangesAgree(inputs0 + inputs1, s, l, allStart, allLimit);
    }
  }

  lemma GrowthIsWider(files: seq<File>, inputs0: seq<File>, inputs1: seq<File>, expanded0: seq<File>,
                      allStart: InternalKey, allLimit: InternalKey, low: Option<UserKey>, high: Option<UserKey>)
    requires ValidFiles(files) && NoDup(files) && ValidFiles(inputs0) && ValidFiles(inputs1) && Selects(files, inputs0)
    requires IsRange(inputs0 + inputs1, allStart, allLimit)
    requires Covers(low, high, Some(allStart.user), Some(allLimit.user))
    requires expanded0 == Overlapping(files, low, high)
    ensures Selects(files, expanded0) && forall f :: f in inputs0 ==> f in expanded0
  {
    OverlappingMembers(files, low, high);
    RangeOrdered(inputs0 + inputs1, allStart, allLimit);
    forall f | f in inputs0 ensures f in expanded0 {
      assert f in inputs0 + inputs1 && f in files;
    }
    assert inputs0[0] in inputs0;
  }

  /** Whether a file reaches past the compaction pointer. */
  predicate Past(pointer: Option<InternalKey>, f: File)
  {
    pointer.None? || Less(pointer.value, f.Largest())
  }

  /** The first file past the compaction pointer, wrapping around to the first file of all. */
  method PickFile(files: seq<File>, pointer: Option<InternalKey>) returns (f: File)
    requires ValidFiles(files) && files != []
    ensures exists i :: 0 <= i < |files| && files[i] == f && (forall j :: 0 <= j < i ==> !Past(pointer, files[j])) &&
                        (Past(pointer, f) || (i == 0 && forall j :: 0 <= j < |files| ==> !Past(pointer, files[j])))
  {
    for i := 0 to |files|
      invariant forall j :: 0 <= j < i ==> !Past(pointer, files[j])
    {
      if Past(pointer, files[i]) {
        return files[i];
      }
    }
    f := files[0];
  }

  /** Automatic compaction of the picked file; at level 0 of every file that transitively overlaps it. */
  method PickCompaction(level: nat, files: seq<File>, parents: seq<File>, grandparentFiles: seq<File>,
                        picked: File, byteLimit: nat)
    returns (inputs0: seq<File>, inputs1: seq<File>, grandparents: seq<File>, smallest: InternalKey,
             largest: InternalKey)
    requires ValidFiles(files) && NoDup(files) && ValidFiles(parents) && ValidFiles(grandparentFiles)
    requires picked in files
    ensures GoodInputs(level, files, parents, inputs0, inputs1, smallest, largest)
    ensures picked in inputs0 && (level > 0 && inputs1 == [] ==> inputs0 == [picked])
    ensures Connected(inputs0 + inputs1)
    ensures forall s, l :: IsRange(inputs0 + inputs1, s, l) ==> grandparents == MeetingRange(grandparentFiles, s, l)
  {
    hide Connected;
    inputs0 := [picked];
    SingleIsConnected(picked);
    if level == 0 {
      smallest, largest := GetRange(inputs0);
      ghost var low, high;
      inputs0, low, high := GetOverlappingInputs(0, files, Some(smallest.user), Some(largest.user));
      OverlappingMembers(files, low, high);
      FileBounds(picked, picked.entries[0]);
      ScanIsClosed(files, inputs0, low, high);
      ScanIsConnected(0, files, [picked], smallest, largest, inputs0);
      SameFilesConnected([picked] + inputs0, inputs0);
    }
    assert picked in inputs0;
    inputs0, inputs1, grandparents, smallest, largest :=
      SetupOtherInputs(level, files, parents, grandparentFiles, inputs0, byteLimit);
  }

  /** Cuts a selection after the file that reaches the size limit. */
  method Truncate(inputs: seq<File>, fileLimit: nat) returns (r: seq<File>)
    ensures r <= inputs && (inputs != [] ==> r != [])
    ensures r == inputs || TotalFileSize(r) >= fileLimit
    ensures forall i :: 0 < i < |r| ==> TotalFileSize(inputs[..i]) < fileLimit
  {
    var total := 0;
    for i := 0 to |inputs|
      invariant total == TotalFileSize(inputs[..i])
      invariant forall j :: 0 < j <= i ==> TotalFileSize(inputs[..j]) < fileLimit
    {
      SizeOfPrefix(inputs, i);
      total := total + inputs[i].size;
      if total >= fileLimit {
        return inputs[..i + 1];
      }
    }
    r := inputs;
  }

  lemma {:induction false} SizeOfPrefix(files: seq<File>, i: nat)
    requires i < |files|
    ensures TotalFileSize(files[..i + 1]) == TotalFileSize(files[..i]) + files[i].size
  {
    if i == 0 {
      assert files[..1] == [files[0]] && files[..0] == [];
      assert files[..1][1..] == [];
    } else {
      SizeOfPrefix(files[1..], i - 1);
      assert files[..i + 1][1..] == files[1..][..i] && files[..i][1..] == files[1..][..i - 1];
    }
  }

  /** Manual compaction of a user-key range; above level 0 only a prefix of the files that meet it. */
  method CompactRange(level: nat, files: seq<File>, parents: seq<File>, grandparentFiles: seq<File>,
                      begin: Option<UserKey>, end: Option<UserKey>, fileLimit: nat, byteLimit: nat)
    returns (none: bool, inputs0: seq<File>, inputs1: seq<File>, grandparents: seq<File>, smallest: InternalKey,
             largest: InternalKey)
    requires ValidFiles(files) && NoDup(files) && ValidFiles(parents) && ValidFiles(grandparentFiles)
    ensures none <==> !exists f :: f in files && Overlaps(f, begin, end)
    ensures !none ==> GoodInputs(level, files, parents, inputs0, inputs1, smallest, largest)
    ensures level == 0 ==> forall f :: f in files && Overlaps(f, begin, end) ==> f in inputs0
  {
    ghost var low, high;
    inputs0, low, high := GetOverlappingInputs(level, files, begin, end);
    OverlappingMembers(files, low, high);
    inputs1, grandparents := [], [];
    smallest, largest := InternalKey(0.0, 0), InternalKey(0.0, 0);
    none := inputs0 == [];
    if none {
      EmptyScan(files, begin, end, low, high);
      return;
    }
    ScanIsNotEmpty(files, begin, end, low, high);
    assert Selects(files, inputs0);
    var picked := inputs0;
    if level > 0 {
      picked := Truncate(inputs0, fileLimit);
      assert Selects(files, picked);
    } else {
      ScanIsClosed(files, inputs0, low, high);
    }
    SelectedAreValid(files, picked);
    inputs0, inputs1, grandparents, smallest, largest :=
      SetupOtherInputs(level, files, parents, grandparentFiles, picked, byteLimit);
  }

  lemma EmptyScan(files: seq<File>, begin: Option<UserKey>, end: Option<UserKey>, low: Option<UserKey>,
                  high: Option<UserKey>)
    requires ValidFiles(files) && Covers(low, high, begin, end)
    requires Overlapping(files, low, high) == []
    ensures !exists f :: f in files && Overlaps(f, begin, end)
  {
    OverlappingMembers(files, low, high);
    forall f | f in files ensures !Overlaps(f, begin, end) {
      assert f !in Overlapping(files, low, high);
    }
  }

  /** The widened range meets a file only if the range asked for already did. */
  lemma ScanIsNotEmpty(files: seq<File>, begin: Option<UserKey>, end: Option<UserKey>, low: Option<UserKey>,
                       high: Option<UserKey>)
    requires ValidFiles(files) && InEveryClosedRange(files, begin, end, low, high)
    requires Overlapping(files, low, high) != []
    ensures exists f :: f in files && Overlaps(f, begin, end)
  {
    if !exists f :: f in files && Overlaps(f, begin, end) {
      assert RangeClosed(files, begin, end) by {
        forall i | 0 <= i < |files| ensures !Overlaps(files[i], begin, end) { assert files[i] in files; }
      }
      assert Covers(begin, end, low, high);
      OverlappingMembers(files, low, high);
      var f := Overlapping(files, low, high)[0];
      assert f in Overlapping(files, low, high);
      assert Overlaps(f, begin, end);
    }
  }
}
