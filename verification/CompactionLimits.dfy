/**
 When a merging compaction is right: the exact condition, for every choice of
 inputs that SetupOtherInputs may return (db/version_set.cc, db/db_impl.cc).
 Nothing is assumed about boundaries between files; what the condition asks
 can be read off the files before the merge begins.
 */
module CompactionLimits {
  import opened Wrappers
  import opened Keys
  import opened Mvcc
  import opened Versions
  import opened Inputs
  import opened Manifest
  import opened Compactions
  import opened Lsm
  import opened Database

  // ---------- reads of two stores ----------

  /** Every read at `oldest` or later returns the same from both stores. */
  ghost predicate SameReads(s: iset<Entry>, s': iset<Entry>, oldest: nat) {
    forall key: UserKey, snapshot: nat | oldest <= snapshot :: SameRead(s, s', key, snapshot)
  }

  ghost predicate SameRead(s: iset<Entry>, s': iset<Entry>, key: UserKey, snapshot: nat) {
    forall r, r' :: Answers(s, key, snapshot, r) && Answers(s', key, snapshot, r') ==>
      Outcome(OpOf(r)) == Outcome(OpOf(r'))
  }

  /** `t` is a marker the merge drops, it decides reads at `oldest`, and below it `left` would serve a value. */
  ghost predicate Revives(s: iset<Entry>, left: iset<Entry>, oldest: nat, base: bool, t: Entry, x: Entry) {
    Obsolete(t, oldest, base) && IsNewest(s, t.key, oldest, t) && IsNewest(left, t.key, oldest, x) && x.op.Put?
  }

  ghost predicate NoRevival(s: iset<Entry>, others: iset<Entry>, input: seq<Entry>, oldest: nat, levels: seq<seq<File>>,
                            low: nat)
  {
    forall t, x :: t in input ==> !Revives(s, others, oldest, BaseLevel(levels, low, t.key), t, x)
  }

  /** Dropping keeps all reads exactly when no dropped marker was hiding a value outside the inputs. */
  lemma DroppingIsExact(others: iset<Entry>, input: seq<Entry>, oldest: nat, levels: seq<seq<File>>, low: nat)
    requires Sorted(input) && UniqueVersions(others + Elems(input))
    ensures var s, s' := others + Elems(input), others + Elems(Kept(input, |input|, oldest, levels, low));
            SameReads(s, s', oldest) <==> NoRevival(s, others, input, oldest, levels, low)
  {
    hide BaseLevel, Sorted;
    var s, s' := others + Elems(input), others + Elems(Kept(input, |input|, oldest, levels, low));
    if SameReads(s, s', oldest) {
      forall t, x | t in input ensures !Revives(s, others, oldest, BaseLevel(levels, low, t.key), t, x) {
        if Revives(s, others, oldest, BaseLevel(levels, low, t.key), t, x) {
          RevivalIsRead(others, input, oldest, levels, low, t, x);
        }
      }
    }
    if NoRevival(s, others, input, oldest, levels, low) {
      forall key: UserKey, snapshot: nat | oldest <= snapshot ensures SameRead(s, s', key, snapshot) {
        forall r, r' | Answers(s, key, snapshot, r) && Answers(s', key, snapshot, r')
          ensures Outcome(OpOf(r)) == Outcome(OpOf(r'))
        {
          HarmlessRead(others, input, oldest, levels, low, key, snapshot, r, r');
        }
      }
    }
  }

  /** A dropped marker that decides a read takes every older input version of its key with it. */
  lemma MarkerTakesAll(s: iset<Entry>, input: seq<Entry>, oldest: nat, levels: seq<seq<File>>, low: nat, t: Entry)
    requires Sorted(input) && UniqueVersions(s) && (forall y :: y in input ==> y in s) && t in input
    requires Obsolete(t, oldest, BaseLevel(levels, low, t.key)) && IsNewest(s, t.key, oldest, t)
    ensures forall y :: y in input && y.key == t.key && y.seqno <= oldest ==>
              y !in Kept(input, |input|, oldest, levels, low)
  {
    hide BaseLevel, Sorted, Kept;
    KeptIsUndropped(input, oldest, levels, low);
    forall y | y in input && y.key == t.key && y.seqno <= oldest ensures Dropped(input, y, oldest, levels, low) {
      if y.seqno < t.seqno {
        assert Shadowed(input, y, oldest);
      }
    }
  }

  lemma RevivalIsRead(others: iset<Entry>, input: seq<Entry>, oldest: nat, levels: seq<seq<File>>, low: nat, t: Entry,
                      x: Entry)
    requires Sorted(input) && UniqueVersions(others + Elems(input)) && t in input
    requires Revives(others + Elems(input), others, oldest, BaseLevel(levels, low, t.key), t, x)
    ensures !SameRead(others + Elems(input), others + Elems(Kept(input, |input|, oldest, levels, low)), t.key, oldest)
  {
    hide BaseLevel, Sorted, Kept, UniqueVersions;
    var kept := Kept(input, |input|, oldest, levels, low);
    var s, s' := others + Elems(input), others + Elems(kept);
    MarkerTakesAll(s, input, oldest, levels, low, t);
    KeptIsUndropped(input, oldest, levels, low);
    assert Answers(s, t.key, oldest, Some(t)) && Answers(s', t.key, oldest, Some(x));
  }

  lemma KeptIsUndropped(input: seq<Entry>, oldest: nat, levels: seq<seq<File>>, low: nat)
    requires Sorted(input)
    ensures Sorted(Kept(input, |input|, oldest, levels, low))
    ensures forall e :: e in Kept(input, |input|, oldest, levels, low) <==>
              e in input && !Dropped(input, e, oldest, levels, low)
  {
    hide Dropped, Kept, Sorted;
    KeptMembers(input, |input|, oldest, levels, low);
    assert input[..|input|] == input;
  }

  lemma HarmlessRead(others: iset<Entry>, input: seq<Entry>, oldest: nat, levels: seq<seq<File>>, low: nat,
                     key: UserKey, snapshot: nat, before: Option<Entry>, after: Option<Entry>)
    requires Sorted(input) && oldest <= snapshot && UniqueVersions(others + Elems(input))
    requires forall t, x :: t in input ==>
               !Revives(others + Elems(input), others, oldest, BaseLevel(levels, low, t.key), t, x)
    requires Answers(others + Elems(input), key, snapshot, before)
    requires Answers(others + Elems(Kept(input, |input|, oldest, levels, low)), key, snapshot, after)
    ensures Outcome(OpOf(before)) == Outcome(OpOf(after))
  {
    hide BaseLevel, Sorted;
    var kept := Kept(input, |input|, oldest, levels, low);
    KeptIsUndropped(input, oldest, levels, low);
    var all, left := others + Elems(input), others + Elems(kept);
    assert forall e :: e in left ==> e in all;
    if before.Some? && before.value !in left {
      // The newest visible version was dropped. It is not shadowed, so it is an obsolete marker.
      var t := before.value;
      assert !Shadowed(input, t, oldest);
      if after.Some? {
        var x := after.value;
        assert x in all && x.seqno <= t.seqno;
        assert x !in kept by {
          assert x.seqno == t.seqno ==> x == t;
          assert x in input && x.seqno < t.seqno ==> Shadowed(input, x, oldest);
        }
        assert !Revives(all, others, oldest, BaseLevel(levels, low, t.key), t, x);
      }
    } else if before.Some? {
      assert after.Some? && after.value.seqno == before.value.seqno;
    } else {
      assert after.None?;
    }
  }

  // ---------- the condition on the files ----------

  /** A version held by an unselected file of the level. */
  ghost predicate Unselected(files: seq<File>, inputs: seq<File>, x: Entry) {
    exists g :: g in files && g !in inputs && x in g.entries
  }

  /** What the two levels keep outside the inputs. */
  ghost function LeftIn(levels: seq<seq<File>>, p: Pick): iset<Entry>
    requires p.level + 1 < |levels|
  {
    iset x | Unselected(levels[p.level], p.inputs0, x) || Unselected(levels[p.level + 1], p.inputs1, x)
  }

  /** The newest input version of the key is a marker the merge drops; all others are shadowed by it. */
  ghost predicate Vanishes(levels: seq<seq<File>>, p: Pick, oldest: nat, key: UserKey)
  {
    exists t :: InInputs(p, t) && t.key == key && Obsolete(t, oldest, BaseLevel(levels, p.level + 2, key))
                && forall e :: InInputs(p, e) && e.key == key ==> e.seqno <= t.seqno
  }

  /**
   (A) A key of which the upper level keeps an older version than it gives away leaves
   nothing behind in the outputs.
   */
  ghost predicate NoneOvertaken(levels: seq<seq<File>>, p: Pick, oldest: nat)
    requires p.level < |levels|
  {
    forall e, x :: InFiles(p.inputs0, e) && Unselected(levels[p.level], p.inputs0, x) && e.key == x.key
                   && x.seqno < e.seqno ==>
      Vanishes(levels, p, oldest, e.key)
  }

  /** (B) No marker that the merge drops hides a value that the two levels keep. `s` is the store that is read. */
  ghost predicate NoneRevived(s: iset<Entry>, levels: seq<seq<File>>, p: Pick, oldest: nat)
    requires p.level + 1 < |levels|
  {
    forall t, x :: InInputs(p, t) ==> !RevivesIn(s, levels, p, oldest, t, x)
  }

  ghost predicate RevivesIn(s: iset<Entry>, levels: seq<seq<File>>, p: Pick, oldest: nat, t: Entry, x: Entry)
    requires p.level + 1 < |levels|
  {
    Revives(s, LeftIn(levels, p), oldest, BaseLevel(levels, p.level + 2, t.key), t, x)
  }

  // ---------- a merge and its result ----------

  /** Inputs as SetupOtherInputs returns them, on levels in order. */
  ghost predicate Picked(levels: seq<seq<File>>, p: Pick)
  {
    && TreeInv(levels) && p.level + 1 < NUM_LEVELS
    && IsSetUp(levels, p)
  }

  ghost predicate IsMerge(input: seq<Entry>, p: Pick) {
    Sorted(input) && forall e :: e in input <==> InInputs(p, e)
  }

  /** The outputs hold the merged inputs without what was dropped, judged by the levels the merge began with. */
  ghost predicate Rewritten(levels: seq<seq<File>>, p: Pick, input: seq<Entry>, oldest: nat, outputs: seq<File>)
  {
    IsMerge(input, p) && Flatten(outputs) == Kept(input, |input|, oldest, levels, p.level + 2)
  }

  /** Since then files were only added, of memtables newer than everything the levels held. */
  ghost predicate Grown(levels: seq<seq<File>>, now: seq<seq<File>>) {
    && |levels| == |now| == NUM_LEVELS
    && (forall l, f :: 0 <= l < NUM_LEVELS && f in levels[l] ==> f in now[l])
    && (forall l, f :: 0 <= l < NUM_LEVELS && f in now[l] && f !in levels[l] ==>
          NewerThan(Elems(f.entries), StoredFrom(levels, 0)))
  }

  lemma NotGrown(levels: seq<seq<File>>)
    requires |levels| == NUM_LEVELS
    ensures Grown(levels, levels)
  {
  }

  lemma FlushGrows(levels: seq<seq<File>>, now: seq<seq<File>>, at: nat, f: File, now': seq<seq<File>>)
    requires Grown(levels, now) && Added(now, at, f, now')
    requires NewerThan(Elems(f.entries), StoredFrom(now, 0))
    ensures Grown(levels, now')
  {
    GrownStore(levels, now, 0);
    forall l, g | 0 <= l < NUM_LEVELS ensures g in now'[l] <==> g in now[l] || (l == at && g == f) {
      assert g in FileSet(now'[l]) <==> g in now'[l];
    }
    forall e, x | e in Elems(f.entries) && x in StoredFrom(levels, 0) && x.key == e.key ensures e.seqno > x.seqno {
      assert x in StoredFrom(now, 0);
    }
  }

  /** A flush while the merge goes on. */
  lemma FlushGrowsClear(levels: seq<seq<File>>, now: seq<seq<File>>, p: Pick, entries: seq<Entry>,
                        maxGrandparentBytes: nat, now': seq<seq<File>>)
    requires Grown(levels, now) && Flushed(now, entries, maxGrandparentBytes, now')
    requires NewerThan(Elems(entries), StoredFrom(now, 0))
    requires p.level + 1 < NUM_LEVELS && AddedClear(levels[p.level + 1], now[p.level + 1], p.inputs0 + p.inputs1)
    requires forall f :: f in p.inputs0 ==> f in levels[p.level]
    requires forall f :: f in p.inputs1 ==> f in levels[p.level + 1]
    ensures |now'| == NUM_LEVELS && Grown(levels, now')
    ensures AddedClear(levels[p.level + 1], now'[p.level + 1], p.inputs0 + p.inputs1)
    ensures p.level >= MAX_MEM_COMPACT_LEVEL && NothingNew(levels[p.level + 1], now[p.level + 1]) ==>
              NothingNew(levels[p.level + 1], now'[p.level + 1])
  {
    hide Overlaps, Clear, PassesBy, NewerThan, ValidFile, InOrder;
    if entries != [] {
      var at: nat, f: File :| f.entries == entries && PlacedAt(now, at, f, now') && at <= MAX_MEM_COMPACT_LEVEL;
      if p.level >= MAX_MEM_COMPACT_LEVEL {
        SameSetSameFiles(now[p.level + 1], now'[p.level + 1]);
      }
      FlushGrows(levels, now, at, f, now');
      AddedMembers(now, at, f, now');
      forall g, h | g in now'[p.level + 1] && g !in levels[p.level + 1] && h in p.inputs0 + p.inputs1
        ensures !Overlaps(h, Some(g.Smallest().user), Some(g.Largest().user))
      {
        assert h in now[p.level] || h in now[p.level + 1];
        if g !in now[p.level + 1] {
          PlacedClear(now, at, f, now', p.level, h);
        }
      }
    }
  }

  /** A file placed one level down meets neither level. */
  lemma PlacedClear(now: seq<seq<File>>, at: nat, f: File, now': seq<seq<File>>, level: nat, h: File)
    requires PlacedAt(now, at, f, now') && at == level + 1 && (h in now[level] || h in now[level + 1])
    ensures !Overlaps(h, Some(f.Smallest().user), Some(f.Largest().user))
  {
    hide Overlaps, Lists;
    assert Clear(now[level], f.Smallest().user, f.Largest().user);
    assert Clear(now[level + 1], f.Smallest().user, f.Largest().user);
  }

  lemma SameSetSameFiles(files: seq<File>, files': seq<File>)
    requires FileSet(files') == FileSet(files)
    ensures NothingNew(files, files')
  {
    forall f | f in files' ensures f in files { assert f in FileSet(files'); }
  }

  lemma GrownStore(levels: seq<seq<File>>, now: seq<seq<File>>, low: nat)
    requires Grown(levels, now)
    ensures forall e :: InLevels(levels, low, e) ==> InLevels(now, low, e)
  {
    forall e | InLevels(levels, low, e) ensures InLevels(now, low, e) {
      var l :| low <= l < |levels| && InFiles(levels[l], e);
      var f :| f in levels[l] && e in f.entries;
      assert f in now[l] && InFiles(now[l], e);
    }
  }

  lemma PickedFacts(levels: seq<seq<File>>, p: Pick)
    requires Picked(levels, p)
    ensures |levels| == NUM_LEVELS && p.level + 1 < NUM_LEVELS
    ensures forall f :: f in p.inputs0 ==> f in levels[p.level]
    ensures forall f :: f in p.inputs1 ==> f in levels[p.level + 1]
  {
    InputFacts(levels, p);
  }

  /** The inputs are still there. */
  lemma StillPicked(levels: seq<seq<File>>, now: seq<seq<File>>, p: Pick)
    requires Picked(levels, p) && Grown(levels, now)
    ensures |levels| == |now| == NUM_LEVELS && p.level + 1 < NUM_LEVELS
    ensures forall f :: f in p.inputs0 ==> f in levels[p.level] && f in now[p.level]
    ensures forall f :: f in p.inputs1 ==> f in levels[p.level + 1] && f in now[p.level + 1]
  {
    InputFacts(levels, p);
  }

  // ---------- recency ----------

  lemma VanishedIsDropped(levels: seq<seq<File>>, p: Pick, input: seq<Entry>, oldest: nat, e: Entry)
    requires IsMerge(input, p) && UniqueVersions(Elems(input))
    requires e in input && Vanishes(levels, p, oldest, e.key)
    ensures Dropped(input, e, oldest, levels, p.level + 2)
  {
    hide BaseLevel, Sorted, InInputs;
    var t :| InInputs(p, t) && t.key == e.key && Obsolete(t, oldest, BaseLevel(levels, p.level + 2, e.key))
             && forall y :: InInputs(p, y) && y.key == e.key ==> y.seqno <= t.seqno;
    assert t in Elems(input) && e in Elems(input);
    if e.seqno < t.seqno {
      assert Shadowed(input, e, oldest);
    }
  }

  /** The newest input version of a key. */
  lemma {:induction false} NewestInput(input: seq<Entry>, key: UserKey, n: nat) returns (t: Entry)
    requires n <= |input| && exists i :: 0 <= i < n && input[i].key == key
    ensures t in input && t.key == key && forall i :: 0 <= i < n && input[i].key == key ==> input[i].seqno <= t.seqno
  {
    if i :| 0 <= i < n - 1 && input[i].key == key {
      t := NewestInput(input, key, n - 1);
      if input[n - 1].key == key && input[n - 1].seqno > t.seqno {
        t := input[n - 1];
      }
    } else {
      t := input[n - 1];
    }
  }

  lemma KeptUnlessVanishes(levels: seq<seq<File>>, p: Pick, input: seq<Entry>, oldest: nat, e: Entry)
    returns (t: Entry)
    requires IsMerge(input, p)
    requires e in input && !Vanishes(levels, p, oldest, e.key)
    ensures t in Kept(input, |input|, oldest, levels, p.level + 2) && t.key == e.key && e.seqno <= t.seqno
  {
    hide BaseLevel, InInputs, Sorted, Kept;
    var i :| 0 <= i < |input| && input[i] == e;
    t := NewestInput(input, e.key, |input|);
    forall y | InInputs(p, y) && y.key == e.key ensures y.seqno <= t.seqno {
      assert y in input;
    }
    assert !Shadowed(input, t, oldest);
    KeptIsUndropped(input, oldest, levels, p.level + 2);
  }

  lemma OutputVersions(levels: seq<seq<File>>, p: Pick, input: seq<Entry>, oldest: nat, outputs: seq<File>)
    requires Rewritten(levels, p, input, oldest, outputs)
    ensures forall e :: InFiles(outputs, e) <==> e in Kept(input, |input|, oldest, levels, p.level + 2)
    ensures forall e :: InFiles(outputs, e) <==> e in input && !Dropped(input, e, oldest, levels, p.level + 2)
    ensures forall e :: InFiles(outputs, e) ==> InInputs(p, e)
  {
    hide Kept, Sorted, Dropped, InInputs;
    KeptIsUndropped(input, oldest, levels, p.level + 2);
    FlattenMembers(outputs);
  }

  /**
   Installing the kept versions keeps the tree exactly under (A), as long as the outputs
   fit between the files then in level+1.
   */
  lemma TreeExact(levels: seq<seq<File>>, now: seq<seq<File>>, p: Pick, input: seq<Entry>, oldest: nat,
                  outputs: seq<File>, now': seq<seq<File>>)
    requires Picked(levels, p) && UniqueVersions(StoredFrom(levels, 0))
    requires Grown(levels, now) && TreeInv(now)
    requires Rewritten(levels, p, input, oldest, outputs) && ValidFiles(outputs)
    requires Disjoint(outputs)
    requires Replaced(now, p, outputs, now')
    ensures |now| == NUM_LEVELS && p.level + 1 < NUM_LEVELS
    ensures TreeInv(now') <==>
            NoneOvertaken(levels, p, oldest) && Fits(now[p.level + 1], p.inputs1, outputs)
  {
    hide *;
    StillPicked(levels, now, p);
    OutputVersions(levels, p, input, oldest, outputs);
    InstallTreeExact(now, p, outputs, now');
    NewerStays(levels, now, p, outputs);
    if NewerThanOutputs(levels[p.level], p.inputs0, outputs) {
      OvertakenNeedsVanish(levels, p, input, oldest, outputs);
    }
    if NoneOvertaken(levels, p, oldest) {
      LeftIsNewer(levels, p, input, oldest, outputs);
    }
  }

  /** Files flushed in the meantime are newer than the outputs anyway. */
  lemma NewerStays(levels: seq<seq<File>>, now: seq<seq<File>>, p: Pick, outputs: seq<File>)
    requires Grown(levels, now) && p.level + 1 < NUM_LEVELS
    requires forall f :: f in p.inputs0 ==> f in levels[p.level]
    requires forall f :: f in p.inputs1 ==> f in levels[p.level + 1]
    requires forall e :: InFiles(outputs, e) ==> InInputs(p, e)
    ensures |levels| == |now| == NUM_LEVELS
    ensures NewerThanOutputs(now[p.level], p.inputs0, outputs)
            <==> NewerThanOutputs(levels[p.level], p.inputs0, outputs)
  {
    StoredBefore(levels, 0, p);
    hide InRest, InInputs, InLevels;
    forall g, o | g in now[p.level] && g !in levels[p.level] && o in outputs ensures Newer(g, o) {
      forall e | e in o.entries ensures e in StoredFrom(levels, 0) {
        assert InFiles(outputs, e);
      }
    }
  }

  lemma NewerVersions(g: File, o: File, x: Entry, t: Entry)
    requires Newer(g, o) && x in g.entries && t in o.entries && x.key == t.key
    ensures x.seqno > t.seqno
  {
    assert x in Elems(g.entries) && t in Elems(o.entries);
  }

  lemma OvertakenNeedsVanish(levels: seq<seq<File>>, p: Pick, input: seq<Entry>, oldest: nat, outputs: seq<File>)
    requires p.level < |levels| && NewerThanOutputs(levels[p.level], p.inputs0, outputs)
    requires Rewritten(levels, p, input, oldest, outputs)
    ensures NoneOvertaken(levels, p, oldest)
  {
    OutputVersions(levels, p, input, oldest, outputs);
    hide Kept, Sorted, Dropped, Flatten;
    forall e, x | InFiles(p.inputs0, e) && Unselected(levels[p.level], p.inputs0, x) && e.key == x.key
    && x.seqno < e.seqno
      ensures Vanishes(levels, p, oldest, e.key)
    {
      assert e in input by { assert InInputs(p, e); }
      if !Vanishes(levels, p, oldest, e.key) {
        var t := KeptUnlessVanishes(levels, p, input, oldest, e);
        assert InFiles(outputs, t);
        var o :| o in outputs && t in o.entries;
        var g :| g in levels[p.level] && g !in p.inputs0 && x in g.entries;
        NewerVersions(g, o, x, t);
      }
    }
  }

  /** Under (A) the kept versions are older than what the upper level keeps of their keys. */
  lemma LeftIsNewer(levels: seq<seq<File>>, p: Pick, input: seq<Entry>, oldest: nat, outputs: seq<File>)
    requires Picked(levels, p) && UniqueVersions(StoredFrom(levels, 0))
    requires Rewritten(levels, p, input, oldest, outputs)
    requires p.level < |levels| && NoneOvertaken(levels, p, oldest)
    ensures NewerThanOutputs(levels[p.level], p.inputs0, outputs)
  {
    PickedFacts(levels, p);
    OutputVersions(levels, p, input, oldest, outputs);
    UniqueInput(levels, p, input);
    hide Kept, Sorted, Dropped, Flatten, IsSetUp, Vanishes, UniqueVersions, StoredFrom, ValidLevels;
    forall g, o | g in levels[p.level] && g !in p.inputs0 && o in outputs ensures Newer(g, o) {
      forall x, e | x in g.entries && e in o.entries && x.key == e.key ensures x.seqno > e.seqno {
        assert InFiles(outputs, e) && Unselected(levels[p.level], p.inputs0, x);
        if !InFiles(p.inputs0, e) {
          NewerThanInput(levels, p, p.level, g, x, e);
        } else if x.seqno < e.seqno {
          VanishedIsDropped(levels, p, input, oldest, e);
        } else {
          TwoFilesDiffer(levels, p.level, p.inputs0, g, x, e);
        }
      }
    }
  }

  lemma UniqueInput(levels: seq<seq<File>>, p: Pick, input: seq<Entry>)
    requires |levels| == NUM_LEVELS && p.level + 1 < NUM_LEVELS && UniqueVersions(StoredFrom(levels, 0))
    requires IsMerge(input, p)
    requires forall f :: f in p.inputs0 ==> f in levels[p.level]
    requires forall f :: f in p.inputs1 ==> f in levels[p.level + 1]
    ensures UniqueVersions(Elems(input))
  {
    hide Sorted, InRest, InInputs;
    StoredBefore(levels, 0, p);
    assert forall e :: e in Elems(input) ==> e in StoredFrom(levels, 0);
  }

  /** One version is not in two files of a level. */
  lemma TwoFilesDiffer(levels: seq<seq<File>>, level: nat, inputs0: seq<File>, g: File, x: Entry, e: Entry)
    requires TreeInv(levels) && UniqueVersions(StoredFrom(levels, 0)) && level < NUM_LEVELS
    requires forall f :: f in inputs0 ==> f in levels[level]
    requires g in levels[level] && g !in inputs0 && x in g.entries && InFiles(inputs0, e)
    ensures x.seqno != e.seqno
  {
    var f :| f in inputs0 && e in f.entries;
    assert InFiles(levels[level], x) && InFiles(levels[level], e);
    assert x in StoredFrom(levels, 0) && e in StoredFrom(levels, 0);
    SameLevelIsApart(levels, level, f, g);
    assert x.Ikey() != e.Ikey();
  }

  // ---------- reads ----------

  /** The store before and after, told apart by what the merge handled. */
  lemma StoreSplit(above: iset<Entry>, levels: seq<seq<File>>, now: seq<seq<File>>, low: nat, p: Pick,
                   input: seq<Entry>, oldest: nat, outputs: seq<File>, now': seq<seq<File>>)
    requires |now| == NUM_LEVELS && low <= p.level && p.level + 1 < NUM_LEVELS
    requires forall f :: f in p.inputs0 ==> f in now[p.level]
    requires forall f :: f in p.inputs1 ==> f in now[p.level + 1]
    requires Rewritten(levels, p, input, oldest, outputs)
    requires Replaced(now, p, outputs, now')
    ensures var others := above + Rest(now, low, p);
            && above + StoredFrom(now, low) == others + Elems(input)
            && above + StoredFrom(now', low) == others + Elems(Kept(input, |input|, oldest, levels, p.level + 2))
  {
    hide Kept, Sorted, Dropped, Flatten, InInputs, InRest, InLevels, InFiles, StoredFrom, Elems, Replaced;
    OutputVersions(levels, p, input, oldest, outputs);
    StoredBefore(now, low, p);
    StoredAfter(now, low, p, outputs, now');
    SplitSets(above, low, now, now', Rest(now, low, p), input,
              Kept(input, |input|, oldest, levels, p.level + 2));
  }

  /**
   With the marker's key absent deeper down, what is older than a deciding marker
   outside the inputs is on the two levels.
   */
  lemma RevivalsAgree(above: iset<Entry>, levels: seq<seq<File>>, now: seq<seq<File>>, low: nat, p: Pick, oldest: nat,
                      t: Entry, x: Entry)
    requires OnGrown(above, levels, now, low, p) && InInputs(p, t)
    ensures var s, base := above + StoredFrom(now, low), BaseLevel(levels, p.level + 2, t.key);
            Revives(s, above + Rest(now, low, p), oldest, base, t, x)
            <==> RevivesIn(s, levels, p, oldest, t, x)
  {
    hide TreeInv, NewerThan, StoredFrom, Rest, LeftIn, InInputs, BaseLevel, Grown;
    var s, others := above + StoredFrom(now, low), above + Rest(now, low, p);
    var left := LeftIn(levels, p);
    if Obsolete(t, oldest, BaseLevel(levels, p.level + 2, t.key)) && IsNewest(s, t.key, oldest, t) {
      forall y: Entry | y.key == t.key && y.seqno <= oldest ensures y in others <==> y in left {
        OlderIsLeft(above, levels, now, low, p, oldest, t, y);
      }
    }
  }

  /** A store newer than the levels, the levels when the merge began, and the levels now. */
  ghost predicate OnGrown(above: iset<Entry>, levels: seq<seq<File>>, now: seq<seq<File>>, low: nat, p: Pick)
  {
    && |levels| == |now| == NUM_LEVELS && low <= p.level && p.level + 1 < NUM_LEVELS
    && TreeInv(levels) && Grown(levels, now) && NewerThan(above, StoredFrom(now, low))
    && (forall f :: f in p.inputs0 ==> f in levels[p.level] && f in now[p.level])
    && (forall f :: f in p.inputs1 ==> f in levels[p.level + 1] && f in now[p.level + 1])
  }

  lemma OlderIsLeft(above: iset<Entry>, levels: seq<seq<File>>, now: seq<seq<File>>, low: nat, p: Pick, oldest: nat,
                    t: Entry, y: Entry)
    requires OnGrown(above, levels, now, low, p)
    requires InInputs(p, t) && BaseLevel(levels, p.level + 2, t.key)
    requires IsNewest(above + StoredFrom(now, low), t.key, oldest, t) && y.key == t.key && y.seqno <= oldest
    ensures y in above + Rest(now, low, p) <==> y in LeftIn(levels, p)
  {
    hide TreeInv, Grown, BaseLevel, LeftIn;
    StoredBefore(now, low, p);
    assert t in StoredFrom(now, low);
    if InRest(now, low, p, y) {
      RestIsLeft(above, levels, now, low, p, oldest, t, y);
    }
    if y in LeftIn(levels, p) {
      LeftIsRest(levels, now, low, p, y);
    }
  }

  lemma RestIsLeft(above: iset<Entry>, levels: seq<seq<File>>, now: seq<seq<File>>, low: nat, p: Pick, oldest: nat,
                   t: Entry, y: Entry)
    requires OnGrown(above, levels, now, low, p)
    requires InInputs(p, t) && BaseLevel(levels, p.level + 2, t.key)
    requires IsNewest(above + StoredFrom(now, low), t.key, oldest, t) && y.key == t.key && y.seqno <= oldest
    requires InRest(now, low, p, y)
    ensures y in LeftIn(levels, p)
  {
    hide TreeInv, Grown, BaseLevel, InInputs;
    var l, f :| low <= l < |now| && f in now[l] && y in f.entries && !Selected(p, l, f);
    assert InFiles(now[l], y);
    assert y in StoredFrom(now, low);
    if f !in levels[l] || l < p.level || l >= p.level + 2 {
      ElsewhereIsNewer(levels, now, p, l, f, y, t);
    }
  }

  lemma ElsewhereIsNewer(levels: seq<seq<File>>, now: seq<seq<File>>, p: Pick, l: nat, f: File, y: Entry, t: Entry)
    requires TreeInv(levels) && Grown(levels, now) && p.level + 1 < NUM_LEVELS && l < NUM_LEVELS
    requires forall f :: f in p.inputs0 ==> f in levels[p.level]
    requires forall f :: f in p.inputs1 ==> f in levels[p.level + 1]
    requires InInputs(p, t) && BaseLevel(levels, p.level + 2, t.key)
    requires f in now[l] && y in f.entries && y.key == t.key && !Selected(p, l, f)
    requires f !in levels[l] || l < p.level || l >= p.level + 2
    ensures y.seqno > t.seqno
  {
    hide BaseLevel, Recency;
    StoredBefore(levels, 0, p);
    if f !in levels[l] {
      FlushedIsNewer(levels, now, l, f, y, t);
    } else if l < p.level {
      NewerThanInput(levels, p, l, f, y, t);
    } else {
      NotBaseLevel(levels, p.level + 2, l, f, y);
    }
  }

  lemma FlushedIsNewer(levels: seq<seq<File>>, now: seq<seq<File>>, l: nat, f: File, y: Entry, t: Entry)
    requires Grown(levels, now) && l < NUM_LEVELS && f in now[l] && f !in levels[l]
    requires y in f.entries && InLevels(levels, 0, t) && y.key == t.key
    ensures y.seqno > t.seqno
  {
    assert t in StoredFrom(levels, 0) && y in Elems(f.entries);
  }

  lemma LeftIsRest(levels: seq<seq<File>>, now: seq<seq<File>>, low: nat, p: Pick, x: Entry)
    requires Grown(levels, now) && low <= p.level && p.level + 1 < NUM_LEVELS
    requires x in LeftIn(levels, p)
    ensures InRest(now, low, p, x)
  {
    var l := if Unselected(levels[p.level], p.inputs0, x) then p.level else p.level + 1;
    var f :| f in levels[l] && f !in (if l == p.level then p.inputs0 else p.inputs1) && x in f.entries;
    assert f in now[l] && !Selected(p, l, f);
  }

  /** Every read of the levels from `low` down, below any newer store, stays the same exactly under (B). */
  lemma ReadsExact(above: iset<Entry>, levels: seq<seq<File>>, now: seq<seq<File>>, low: nat, p: Pick,
                   input: seq<Entry>, oldest: nat, outputs: seq<File>, now': seq<seq<File>>)
    requires Picked(levels, p) && low <= p.level && Grown(levels, now)
    requires NewerThan(above, StoredFrom(now, low)) && UniqueVersions(above + StoredFrom(now, low))
    requires Rewritten(levels, p, input, oldest, outputs)
    requires Replaced(now, p, outputs, now')
    ensures p.level + 1 < |levels|
    ensures SameReads(above + StoredFrom(now, low), above + StoredFrom(now', low), oldest)
            <==> NoneRevived(above + StoredFrom(now, low), levels, p, oldest)
  {
    hide *;
    MergeOf(levels, p, input, oldest, outputs);
    StillPicked(levels, now, p);
    StoreSplit(above, levels, now, low, p, input, oldest, outputs, now');
    DroppingIsExact(above + Rest(now, low, p), input, oldest, levels, p.level + 2);
    NoRevivalAgrees(above, levels, now, low, p, input, oldest);
  }

  lemma MergeOf(levels: seq<seq<File>>, p: Pick, input: seq<Entry>, oldest: nat, outputs: seq<File>)
    requires Rewritten(levels, p, input, oldest, outputs)
    ensures IsMerge(input, p) && Sorted(input)
  {
  }

  lemma NoRevivalAgrees(above: iset<Entry>, levels: seq<seq<File>>, now: seq<seq<File>>, low: nat, p: Pick,
                        input: seq<Entry>, oldest: nat)
    requires Picked(levels, p) && low <= p.level && Grown(levels, now)
    requires NewerThan(above, StoredFrom(now, low)) && IsMerge(input, p)
    ensures p.level + 1 < |levels|
    ensures NoRevival(above + StoredFrom(now, low), above + Rest(now, low, p), input, oldest,
                      levels, p.level + 2)
            <==> NoneRevived(above + StoredFrom(now, low), levels, p, oldest)
  {
    hide TreeInv, IsSetUp, NewerThan, Revives, RevivesIn, BaseLevel, InInputs, StoredFrom, Rest, Sorted, Grown;
    StillPicked(levels, now, p);
    assert OnGrown(above, levels, now, low, p);
    var s, others, deeper := above + StoredFrom(now, low), above + Rest(now, low, p), p.level + 2;
    if t, x :| InInputs(p, t) && RevivesIn(s, levels, p, oldest, t, x) {
      RevivalsAgree(above, levels, now, low, p, oldest, t, x);
      assert t in input && Revives(s, others, oldest, BaseLevel(levels, deeper, t.key), t, x);
    } else if t, x :| t in input && Revives(s, others, oldest, BaseLevel(levels, deeper, t.key), t, x) {
      RevivalsAgree(above, levels, now, low, p, oldest, t, x);
    }
  }

  /**
   A merge of any inputs that SetupOtherInputs may return keeps the tree and all
   reads at `oldest` and later exactly under (A) and (B), and if its outputs fit
   between the files that level+1 holds by then. With nothing above and `low` the
   upper level this is about the levels of the merge and deeper; with the
   memtables above and `low` zero it is about the whole database.
   */
  lemma CompactionExact(above: iset<Entry>, levels: seq<seq<File>>, now: seq<seq<File>>, low: nat, p: Pick,
                        input: seq<Entry>, oldest: nat, outputs: seq<File>, now': seq<seq<File>>)
    requires Picked(levels, p) && UniqueVersions(StoredFrom(levels, 0))
    requires low <= p.level
    requires Grown(levels, now) && TreeInv(now)
    requires NewerThan(above, StoredFrom(now, low)) && UniqueVersions(above + StoredFrom(now, low))
    requires Rewritten(levels, p, input, oldest, outputs) && ValidFiles(outputs)
    requires Disjoint(outputs)
    requires Replaced(now, p, outputs, now')
    ensures |levels| == |now| == NUM_LEVELS && p.level + 1 < NUM_LEVELS
    ensures TreeInv(now') && SameReads(above + StoredFrom(now, low), above + StoredFrom(now', low), oldest)
            <==> NoneOvertaken(levels, p, oldest)
                 && NoneRevived(above + StoredFrom(now, low), levels, p, oldest)
                 && Fits(now[p.level + 1], p.inputs1, outputs)
  {
    hide *;
    StillPicked(levels, now, p);
    ReadsExact(above, levels, now, low, p, input, oldest, outputs, now');
    TreeExact(levels, now, p, input, oldest, outputs, now');
  }

  /** Without a flush in between the outputs always fit. */
  lemma UnlessFlushedFits(levels: seq<seq<File>>, p: Pick, input: seq<Entry>, oldest: nat, outputs: seq<File>)
    requires Picked(levels, p) && ValidFiles(outputs)
    requires Rewritten(levels, p, input, oldest, outputs)
    ensures p.level + 1 < |levels| && Fits(levels[p.level + 1], p.inputs1, outputs)
  {
    OutputVersions(levels, p, input, oldest, outputs);
    PickedFits(levels, p, outputs);
  }

  /** No file was added since. */
  predicate NothingNew(files: seq<File>, now: seq<File>) {
    forall f :: f in now ==> f in files
  }

  /** The output's range encloses the file's. */
  predicate Spans(o: File, g: File) {
    o.Smallest().user < g.Smallest().user && g.Largest().user < o.Largest().user
  }

  predicate NoneSpanned(files: seq<File>, now: seq<File>, outputs: seq<File>) {
    forall g, o :: g in now && g !in files && o in outputs ==> !Spans(o, g)
  }

  /** The files added since are clear of the inputs. */
  ghost predicate AddedClear(files: seq<File>, now: seq<File>, inputs: seq<File>) {
    forall f, h :: f in now && f !in files && h in inputs ==>
      !Overlaps(h, Some(f.Smallest().user), Some(f.Largest().user))
  }

  /** The outputs fit exactly if none of them spans a file flushed since the merge began. */
  lemma FitsExact(levels: seq<seq<File>>, now: seq<seq<File>>, p: Pick, input: seq<Entry>, oldest: nat,
                  outputs: seq<File>)
    requires Picked(levels, p) && ValidFiles(outputs) && Disjoint(outputs)
    requires Grown(levels, now) && ValidLevels(now)
    requires Rewritten(levels, p, input, oldest, outputs)
    requires p.level + 1 < |levels| && AddedClear(levels[p.level + 1], now[p.level + 1], p.inputs0 + p.inputs1)
    ensures p.level + 1 < |now|
    ensures Fits(now[p.level + 1], p.inputs1, outputs) <==> NoneSpanned(levels[p.level + 1], now[p.level + 1], outputs)
  {
    hide Picked, Rewritten, Separated, Spans;
    UnlessFlushedFits(levels, p, input, oldest, outputs);
    StillPicked(levels, now, p);
    OutputVersions(levels, p, input, oldest, outputs);
    OutputsSpanNone(outputs);
    forall g, o | g in now[p.level + 1] && g !in levels[p.level + 1] && o in outputs
      ensures Separated(g, o) <==> !Spans(o, g)
    {
      SeparatedOrSpanned(p, outputs, g, o);
    }
  }

  lemma OutputsSpanNone(outputs: seq<File>)
    requires ValidFiles(outputs) && Disjoint(outputs)
    ensures forall g, o :: g in outputs && o in outputs ==> !Spans(o, g)
  {
    DisjointIsSeparated(outputs);
    forall g, o | g in outputs && o in outputs ensures !Spans(o, g) {
      assert g in FileSet(outputs) && o in FileSet(outputs);
      FileBounds(g, g.entries[0]);
    }
  }

  /** An output's ends are input keys, so a file clear of the inputs lies beside it or inside its range. */
  lemma SeparatedOrSpanned(p: Pick, outputs: seq<File>, g: File, o: File)
    requires ValidFile(g) && ValidFile(o) && o in outputs && forall f :: f in p.inputs0 + p.inputs1 ==> ValidFile(f)
    requires forall f :: f in p.inputs0 + p.inputs1 ==> !Overlaps(f, Some(g.Smallest().user), Some(g.Largest().user))
    requires forall e :: InFiles(outputs, e) ==> InInputs(p, e)
    ensures Separated(g, o) <==> !Spans(o, g)
    ensures Spans(o, g) ==> SomeBelow(p.inputs0 + p.inputs1, g.Smallest().user)
    ensures Spans(o, g) ==> SomeAbove(p.inputs0 + p.inputs1, g.Smallest().user)
  {
    var first, last := o.entries[0], o.entries[|o.entries| - 1];
    assert InFiles(outputs, first) && InFiles(outputs, last);
    var a :| a in p.inputs0 + p.inputs1 && first in a.entries;
    var b :| b in p.inputs0 + p.inputs1 && last in b.entries;
    FileBounds(a, first);
    FileBounds(b, last);
    FileBounds(g, g.entries[0]);
  }

  /** Inputs without a gap leave no room for a flushed file inside an output's range. */
  lemma ConnectedSpanNone(levels: seq<seq<File>>, now: seq<seq<File>>, p: Pick, input: seq<Entry>, oldest: nat,
                          outputs: seq<File>)
    requires Picked(levels, p) && ValidFiles(outputs)
    requires Grown(levels, now) && ValidLevels(now)
    requires Rewritten(levels, p, input, oldest, outputs) && Connected(p.inputs0 + p.inputs1)
    requires p.level + 1 < |levels| && AddedClear(levels[p.level + 1], now[p.level + 1], p.inputs0 + p.inputs1)
    ensures p.level + 1 < |now| && NoneSpanned(levels[p.level + 1], now[p.level + 1], outputs)
  {
    hide Picked, Rewritten, Connected, SomeBelow, SomeAbove, Spans;
    StillPicked(levels, now, p);
    OutputVersions(levels, p, input, oldest, outputs);
    forall g, o | g in now[p.level + 1] && g !in levels[p.level + 1] && o in outputs ensures !Spans(o, g) {
      SeparatedOrSpanned(p, outputs, g, o);
      if Spans(o, g) {
        GapIsCovered(p.inputs0 + p.inputs1, g);
      }
    }
  }

  lemma GapIsCovered(inputs: seq<File>, g: File)
    requires Connected(inputs) && ValidFile(g)
    requires SomeBelow(inputs, g.Smallest().user) && SomeAbove(inputs, g.Smallest().user)
    ensures exists h :: h in inputs && Overlaps(h, Some(g.Smallest().user), Some(g.Largest().user))
  {
    FileBounds(g, g.entries[0]);
    assert SomeAround(inputs, g.Smallest().user);
    var h :| h in inputs && Overlaps(h, Some(g.Smallest().user), Some(g.Smallest().user));
    assert Overlaps(h, Some(g.Smallest().user), Some(g.Largest().user));
  }

  /** Clear boundaries on both levels are enough, though not necessary. */
  lemma ClearBoundariesSuffice(above: iset<Entry>, levels: seq<seq<File>>, p: Pick, oldest: nat)
    requires TreeInv(levels) && NewerThan(above, StoredFrom(levels, 0))
    requires ClosedInputs(levels, p) && Closed(levels[p.level + 1], p.inputs1)
    ensures NoneOvertaken(levels, p, oldest)
    ensures NoneRevived(above + StoredFrom(levels, 0), levels, p, oldest)
  {
    InputFacts(levels, p);
    forall e, x | InFiles(p.inputs0, e) && Unselected(levels[p.level], p.inputs0, x) && e.key == x.key
    && x.seqno < e.seqno
      ensures false
    {
      var g :| g in levels[p.level] && g !in p.inputs0 && x in g.entries;
      NewerThanInput(levels, p, p.level, g, x, e);
    }
    forall t, x | InInputs(p, t)
      ensures !RevivesIn(above + StoredFrom(levels, 0), levels, p, oldest, t, x)
    {
      if RevivesIn(above + StoredFrom(levels, 0), levels, p, oldest, t, x) {
        NotGrown(levels);
        LeftIsRest(levels, levels, 0, p, x);
        StoredBefore(levels, 0, p);
        assert x in StoredFrom(levels, 0) && x.seqno <= t.seqno;
        NothingOlderOutside(levels, p, t, x);
      }
    }
  }

  // ---------- the database ----------

  /** (A) and (B) for the whole store. */
  ghost predicate Harmless(s: iset<Entry>, levels: seq<seq<File>>, p: Pick, oldest: nat)
    requires p.level + 1 < |levels|
  {
    NoneOvertaken(levels, p, oldest) && NoneRevived(s, levels, p, oldest)
  }

  /** What is written after `oldest` does not matter, so the condition can be checked before the merge. */
  lemma LaterWritesDoNotMatter(s: iset<Entry>, s': iset<Entry>, levels: seq<seq<File>>, p: Pick, oldest: nat)
    requires p.level + 1 < |levels| && forall e: Entry :: e.seqno <= oldest ==> (e in s <==> e in s')
    ensures Harmless(s, levels, p, oldest)
            <==> Harmless(s', levels, p, oldest)
  {
    hide NoneOvertaken, InInputs, BaseLevel, LeftIn;
    if t, x :| InInputs(p, t) && RevivesIn(s, levels, p, oldest, t, x) {
      assert RevivesIn(s', levels, p, oldest, t, x);
    }
    if t, x :| InInputs(p, t) && RevivesIn(s', levels, p, oldest, t, x) {
      assert RevivesIn(s, levels, p, oldest, t, x);
    }
  }

  /** A smaller store serves the history from `oldest` on exactly when it reads as the larger one does. */
  lemma FaithfulExact(s: iset<Entry>, s': iset<Entry>, h: History, horizon: nat, oldest: nat)
    requires Faithful(s, h, horizon) && horizon <= oldest <= |h| && s' <= s
    ensures Faithful(s', h, oldest) <==> SameReads(s, s', oldest)
  {
    FromHistoryUnique(s, h);
    SmallerFromHistory(s, s', h);
    FromHistoryUnique(s', h);
    if SameReads(s, s', oldest) {
      forall key: UserKey, snapshot: nat | oldest <= snapshot <= |h| ensures ReadsRight(s', h, key, snapshot) {
        AnswerExists(s, key, snapshot);
        assert ReadsRight(s, h, key, snapshot) && SameRead(s, s', key, snapshot);
      }
    }
    if Faithful(s', h, oldest) {
      forall key: UserKey, snapshot: nat | oldest <= snapshot ensures SameRead(s, s', key, snapshot) {
        var last := if snapshot <= |h| then snapshot else |h|;
        assert ReadsRight(s, h, key, last) && ReadsRight(s', h, key, last);
        NothingAfterHistory(s, h, key, snapshot, last);
        NothingAfterHistory(s', h, key, snapshot, last);
      }
    }
  }

  /** Merging closed inputs and dropping unreadable versions keeps every read at `oldest` or later right. */
  lemma CompactionKeepsReads(above: iset<Entry>, levels: seq<seq<File>>, p: Pick, input: seq<Entry>, oldest: nat,
                             levels': seq<seq<File>>, outputs: seq<File>, h: History, horizon: nat)
    requires Picked(levels, p)
    requires Closed(levels[p.level], p.inputs0) && Closed(levels[p.level + 1], p.inputs1)
    requires NewerThan(above, StoredFrom(levels, 0))
    requires Rewritten(levels, p, input, oldest, outputs)
    requires Replaced(levels, p, outputs, levels')
    requires Faithful(above + StoredFrom(levels, 0), h, horizon) && horizon <= oldest <= |h|
    ensures Faithful(above + StoredFrom(levels', 0), h, oldest)
  {
    hide Rewritten, Replaced, Closed, IsSetUp, NewerThan, UniqueVersions, InInputs, InRest, SameReads, NoneRevived,
         NoneOvertaken, FromHistory, ReadsRightFrom;
    FromHistoryUnique(above + StoredFrom(levels, 0), h);
    NotGrown(levels);
    ClearBoundariesSuffice(above, levels, p, oldest);
    ReadsExact(above, levels, levels, 0, p, input, oldest, outputs, levels');
    FewerFiles(levels, levels, p, input, oldest, outputs, levels');
    FaithfulExact(above + StoredFrom(levels, 0), above + StoredFrom(levels', 0), h, horizon, oldest);
  }

  lemma SmallerFromHistory(s: iset<Entry>, s': iset<Entry>, h: History)
    requires FromHistory(s, h) && s' <= s
    ensures FromHistory(s', h)
  {
  }

  lemma NothingAfterHistory(s: iset<Entry>, h: History, key: UserKey, snapshot: nat, last: nat)
    requires FromHistory(s, h) && (snapshot == last || snapshot >= last == |h|)
    ensures forall r :: Answers(s, key, snapshot, r) ==> Answers(s, key, last, r)
  {
  }

  /**
   After a merge the database's invariant holds, with reads from `oldest` on,
   exactly if the inputs were harmless and the outputs fit.
   */
  lemma DatabaseExact(mem: seq<Entry>, imm: Option<seq<Entry>>, levels: seq<seq<File>>, now: seq<seq<File>>, p: Pick,
                      input: seq<Entry>, oldest: nat, outputs: seq<File>, now': seq<seq<File>>, h: History,
                      horizon: nat)
    requires PlacesOrdered(mem, imm, now) && Faithful(Contents(mem, imm, now), h, horizon) && horizon <= oldest <= |h|
    requires Picked(levels, p) && Grown(levels, now)
    requires Rewritten(levels, p, input, oldest, outputs) && ValidFiles(outputs)
    requires Disjoint(outputs)
    requires Replaced(now, p, outputs, now')
    ensures |levels| == |now| == NUM_LEVELS && p.level + 1 < NUM_LEVELS
    ensures PlacesOrdered(mem, imm, now') && Faithful(Contents(mem, imm, now'), h, oldest)
            <==> Harmless(Contents(mem, imm, now), levels, p, oldest)
                 && Fits(now[p.level + 1], p.inputs1, outputs)
  {
    var above := Elems(mem) + Elems(EntriesOf(imm));
    FromHistoryUnique(Contents(mem, imm, now), h);
    GrownStore(levels, now, 0);
    assert forall e :: e in StoredFrom(levels, 0) ==> e in Contents(mem, imm, now);
    CompactionExact(above, levels, now, 0, p, input, oldest, outputs, now');
    PlacesExact(mem, imm, levels, now, p, input, oldest, outputs, now');
    FaithfulExact(Contents(mem, imm, now), Contents(mem, imm, now'), h, horizon, oldest);
  }

  /** A merge only ever takes versions away. */
  lemma FewerFiles(levels: seq<seq<File>>, now: seq<seq<File>>, p: Pick, input: seq<Entry>, oldest: nat,
                   outputs: seq<File>, now': seq<seq<File>>)
    requires Picked(levels, p) && Grown(levels, now)
    requires Rewritten(levels, p, input, oldest, outputs) && Replaced(now, p, outputs, now')
    ensures StoredFrom(now', 0) <= StoredFrom(now, 0)
  {
    hide Picked, Rewritten, TreeInv, Sorted, InInputs, InRest, Grown, Replaced;
    StillPicked(levels, now, p);
    OutputVersions(levels, p, input, oldest, outputs);
    StoredBefore(now, 0, p);
    StoredAfter(now, 0, p, outputs, now');
    assert forall e :: e in StoredFrom(now', 0) ==> e in StoredFrom(now, 0);
  }

  lemma PlacesExact(mem: seq<Entry>, imm: Option<seq<Entry>>, levels: seq<seq<File>>, now: seq<seq<File>>, p: Pick,
                    input: seq<Entry>, oldest: nat, outputs: seq<File>, now': seq<seq<File>>)
    requires PlacesOrdered(mem, imm, now) && Picked(levels, p)
    requires Grown(levels, now)
    requires Rewritten(levels, p, input, oldest, outputs)
    requires Replaced(now, p, outputs, now')
    ensures PlacesOrdered(mem, imm, now') <==> TreeInv(now')
    ensures StoredFrom(now', 0) <= StoredFrom(now, 0)
  {
    hide Picked, Rewritten, TreeInv, Sorted, Grown, Replaced;
    FewerFiles(levels, now, p, input, oldest, outputs, now');
  }
}
