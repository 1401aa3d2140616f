/**
 Version edits, the builder that applies them, and recovery from the MANIFEST
 (db/version_set.cc: VersionSet::Builder, LogAndApply, WriteSnapshot, Recover).
 */
module Manifest {
  import opened Wrappers
  import opened Keys
  import opened Versions

  datatype Edit = Edit(
    logNumber: Option<nat>,
    prevLogNumber: Option<nat>,
    nextFileNumber: Option<nat>,
    lastSequence: Option<nat>,
    compactPointers: seq<(nat, InternalKey)>,
    deleted: set<(nat, nat)>,
    added: seq<(nat, File)>)

  predicate ValidEdit(e: Edit) {
    && (forall d :: d in e.deleted ==> d.0 < NUM_LEVELS)
    && (forall i :: 0 <= i < |e.added| ==> e.added[i].0 < NUM_LEVELS && ValidFile(e.added[i].1))
    && (forall i :: 0 <= i < |e.compactPointers| ==> e.compactPointers[i].0 < NUM_LEVELS)
  }

  /** The order of files in a level: smallest key, then file number. */
  predicate BySmallestKey(f: File, g: File) {
    Less(f.Smallest(), g.Smallest()) || (f.Smallest() == g.Smallest() && f.number < g.number)
  }

  predicate InOrder(files: seq<File>) {
    forall i, j :: 0 <= i < j < |files| ==> BySmallestKey(files[i], files[j])
  }

  ghost function FileSet(files: seq<File>): set<File> { set f | f in files }

  ghost function Numbers(files: set<File>): set<nat> { set f | f in files :: f.number }

  /** `files` lists exactly the set `s`, in order. */
  ghost predicate Lists(files: seq<File>, s: set<File>) {
    ValidFiles(files) && InOrder(files) && FileSet(files) == s
  }

  lemma FirstIsLeast(files: seq<File>, s: set<File>)
    requires Lists(files, s)
    ensures files == [] <==> s == {}
    ensures files != [] ==>
              && files[0] in s && (forall f :: f in s ==> ValidFile(f) && (f == files[0] || BySmallestKey(files[0], f)))
              && Lists(files[1..], s - {files[0]})
  {
    if files != [] {
      assert files[0] in FileSet(files);
      assert files == [files[0]] + files[1..];
      assert forall f :: f in files[1..] ==> BySmallestKey(files[0], f);
    } else {
      assert FileSet(files) == {};
    }
  }

  /** A level list is determined by the files it holds. */
  lemma {:induction false} ListsUnique(a: seq<File>, b: seq<File>, s: set<File>)
    requires Lists(a, s) && Lists(b, s)
    ensures a == b
  {
    FirstIsLeast(a, s);
    FirstIsLeast(b, s);
    if a != [] {
      assert a[0] == b[0];
      ListsUnique(a[1..], b[1..], s - {a[0]});
      assert a == [a[0]] + a[1..] && b == [b[0]] + b[1..];
    }
  }

  // ---------- what a list of edits means for one level ----------

  ghost function DeletedAt(e: Edit, l: nat): set<nat> { set d | d in e.deleted && d.0 == l :: d.1 }

  ghost function AddedAt(e: Edit, l: nat): set<File> { set a | a in e.added && a.0 == l :: a.1 }

  /** One edit: drop the deleted numbers, then add the new files. */
  ghost function EditLevel(files: set<File>, e: Edit, l: nat): set<File> {
    (set f | f in files && f.number !in DeletedAt(e, l)) + AddedAt(e, l)
  }

  /** The files of level `l` after installing the edits one by one. */
  ghost function FilesAfter(base: set<File>, edits: seq<Edit>, l: nat): set<File> {
    if edits == [] then base
    else EditLevel(FilesAfter(base, edits[..|edits| - 1], l), edits[|edits| - 1], l)
  }

  /** All file numbers the level ever held. */
  ghost function EverHeld(base: set<File>, edits: seq<Edit>, l: nat): set<nat> {
    if edits == [] then Numbers(base)
    else EverHeld(base, edits[..|edits| - 1], l) + Numbers(AddedAt(edits[|edits| - 1], l))
  }

  ghost predicate FreshIn(held: set<nat>, e: Edit, l: nat) {
    && Numbers(AddedAt(e, l)) !! held
    && forall i, j :: 0 <= i < j < |e.added| && e.added[i].0 == l && e.added[j].0 == l ==>
                        e.added[i].1.number != e.added[j].1.number
  }

  /** No file number is ever added to a level that already held it. */
  ghost predicate NeverReadded(base: set<File>, edits: seq<Edit>, l: nat) {
    edits == [] ||
    (NeverReadded(base, edits[..|edits| - 1], l)
     && FreshIn(EverHeld(base, edits[..|edits| - 1], l), edits[|edits| - 1], l))
  }

  lemma {:induction false} HeldIncludesFiles(base: set<File>, edits: seq<Edit>, l: nat)
    ensures Numbers(FilesAfter(base, edits, l)) <= EverHeld(base, edits, l)
  {
    if edits != [] {
      HeldIncludesFiles(base, edits[..|edits| - 1], l);
      var e := edits[|edits| - 1];
      var before := FilesAfter(base, edits[..|edits| - 1], l);
      forall f | f in FilesAfter(base, edits, l) ensures f.number in EverHeld(base, edits, l) {
        if f in before { assert f.number in Numbers(before); }
        if f in AddedAt(e, l) { assert f.number in Numbers(AddedAt(e, l)); }
      }
    }
  }

  // ---------- the builder ----------

  /** Accumulates edits for one level: the pending deletions and additions. */
  datatype LevelState = LevelState(deleted: set<nat>, added: seq<File>)

  ghost predicate Represents(base: seq<File>, state: LevelState, edits: seq<Edit>, l: nat) {
    && ValidFiles(base) && InOrder(base) && ValidFiles(state.added) && InOrder(state.added)
    && Numbers(FileSet(base)) !! Numbers(FileSet(state.added))
    && Numbers(FileSet(base)) + Numbers(FileSet(state.added)) == EverHeld(FileSet(base), edits, l)
    && (set f | f in FileSet(base) + FileSet(state.added) && f.number !in state.deleted) ==
       FilesAfter(FileSet(base), edits, l)
  }

  class Builder {
    const base: seq<seq<File>>
    var levels: seq<LevelState>

    ghost predicate Valid(edits: seq<Edit>)
      reads this
    {
      && |base| == NUM_LEVELS && |levels| == NUM_LEVELS
      && forall l :: 0 <= l < NUM_LEVELS ==> Represents(base[l], levels[l], edits, l)
    }

    constructor (base: seq<seq<File>>)
      requires |base| == NUM_LEVELS && forall l :: 0 <= l < NUM_LEVELS ==> ValidFiles(base[l]) && InOrder(base[l])
      ensures Valid([]) && this.base == base
    {
      this.base := base;
      levels := seq(NUM_LEVELS, _ => LevelState({}, []));
    }

    /** Inserts into the ordered set of added files of a level. */
    method AddFile(level: nat, f: File)
      requires |levels| == NUM_LEVELS && level < NUM_LEVELS && ValidFile(f)
      requires ValidFiles(levels[level].added) && InOrder(levels[level].added)
      requires forall g :: g in levels[level].added ==> g.number != f.number
      modifies this
      ensures |levels| == NUM_LEVELS
      ensures forall l :: 0 <= l < NUM_LEVELS && l != level ==> levels[l] == old(levels[l])
      ensures levels[level].deleted == old(levels[level].deleted) - {f.number}
      ensures ValidFiles(levels[level].added) && InOrder(levels[level].added)
      ensures FileSet(levels[level].added) == FileSet(old(levels[level].added)) + {f}
    {
      var added := levels[level].added;
      var i := 0;
      while i < |added| && BySmallestKey(added[i], f)
        invariant 0 <= i <= |added| && forall j :: 0 <= j < i ==> BySmallestKey(added[j], f)
      {
        i := i + 1;
      }
      OrderedInsert(added, i, f);
      levels := levels[level := LevelState(levels[level].deleted - {f.number}, added[..i] + [f] + added[i..])];
    }

    method DeleteFiles(edit: Edit)
      requires |levels| == NUM_LEVELS
      requires forall l :: 0 <= l < NUM_LEVELS ==> ValidFiles(levels[l].added) && InOrder(levels[l].added)
      modifies this
      ensures |levels| == NUM_LEVELS
      ensures forall l :: 0 <= l < NUM_LEVELS ==> Partial(old(levels)[l], levels[l], edit, 0, l)
    {
      levels := seq(NUM_LEVELS, l requires 0 <= l < NUM_LEVELS && |levels| == NUM_LEVELS reads this =>
        LevelState(levels[l].deleted + (set d | d in edit.deleted && d.0 == l :: d.1), levels[l].added));
    }

    method Apply(edit: Edit, ghost edits: seq<Edit>)
      requires Valid(edits) && ValidEdit(edit)
      requires forall l :: 0 <= l < NUM_LEVELS ==> FreshIn(EverHeld(FileSet(base[l]), edits, l), edit, l)
      modifies this
      ensures Valid(edits + [edit])
    {
      ghost var before := levels;
      assert forall l :: 0 <= l < NUM_LEVELS ==> Represents(base[l], before[l], edits, l);
      DeleteFiles(edit);
      for i := 0 to |edit.added|
        invariant |levels| == NUM_LEVELS
        invariant forall l :: 0 <= l < NUM_LEVELS ==> Partial(before[l], levels[l], edit, i, l)
      {
        AddNext(edit, i, before, edits);
      }
      forall l | 0 <= l < NUM_LEVELS ensures Represents(base[l], levels[l], edits + [edit], l) {
        ApplyRepresents(base[l], before[l], levels[l], edits, edit, l);
      }
    }

    method AddNext(edit: Edit, i: nat, ghost before: seq<LevelState>, ghost edits: seq<Edit>)
      requires |base| == |before| == |levels| == NUM_LEVELS && ValidEdit(edit) && i < |edit.added|
      requires forall l :: 0 <= l < NUM_LEVELS ==> Represents(base[l], before[l], edits, l)
      requires forall l :: 0 <= l < NUM_LEVELS ==> FreshIn(EverHeld(FileSet(base[l]), edits, l), edit, l)
      requires forall l :: 0 <= l < NUM_LEVELS ==> Partial(before[l], levels[l], edit, i, l)
      modifies this
      ensures |levels| == NUM_LEVELS
      ensures forall l :: 0 <= l < NUM_LEVELS ==> Partial(before[l], levels[l], edit, i + 1, l)
    {
      var level, f := edit.added[i].0, edit.added[i].1;
      NotAddedBefore(FileSet(base[level]), before[level], levels[level], edits, edit, i);
      AddFile(level, f);
      forall l | 0 <= l < NUM_LEVELS ensures Partial(before[l], levels[l], edit, i + 1, l) {
        PartialStep(before[l], old(levels)[l], levels[l], edit, i, l);
      }
    }

    method SaveLevel(level: nat, ghost edits: seq<Edit>) returns (files: seq<File>)
      requires Valid(edits) && level < NUM_LEVELS
      ensures Lists(files, FilesAfter(FileSet(base[level]), edits, level))
    {
      assert Represents(base[level], levels[level], edits, level);
      files := MergeFiles(base[level], levels[level].added, levels[level].deleted);
      ghost var s := set f | f in FileSet(base[level]) + FileSet(levels[level].added)
                     && f.number !in levels[level].deleted;
      assert FileSet(files) == s;
    }

    method SaveTo(ghost edits: seq<Edit>) returns (result: seq<seq<File>>)
      requires Valid(edits)
      ensures |result| == NUM_LEVELS
      ensures forall l :: 0 <= l < NUM_LEVELS ==> Lists(result[l], FilesAfter(FileSet(base[l]), edits, l))
    {
      result := [];
      for level := 0 to NUM_LEVELS
        invariant |result| == level
        invariant forall l :: 0 <= l < level ==> Lists(result[l], FilesAfter(FileSet(base[l]), edits, l))
      {
        var files := SaveLevel(level, edits);
        result := result + [files];
      }
    }
  }

  /** Merges the ordered base files with the ordered added files, leaving out the deleted ones. */
  method MergeFiles(baseFiles: seq<File>, added: seq<File>, deleted: set<nat>) returns (files: seq<File>)
    requires ValidFiles(baseFiles) && InOrder(baseFiles) && ValidFiles(added) && InOrder(added)
    requires Numbers(FileSet(baseFiles)) !! Numbers(FileSet(added))
    ensures ValidFiles(files) && InOrder(files)
    ensures forall f :: f in files <==> (f in baseFiles || f in added) && f.number !in deleted
  {
    files := [];
    var b := 0;
    for a := 0 to |added|
      invariant b <= |baseFiles| && Merged(baseFiles, added, deleted, b, a, files)
    {
      while b < |baseFiles| && !BySmallestKey(added[a], baseFiles[b])
        invariant b <= |baseFiles| && Merged(baseFiles, added, deleted, b, a, files)
      {
        DistinctAreOrdered(baseFiles, added, b, a);
        MergeBase(baseFiles, added, deleted, b, a, files);
        files := if baseFiles[b].number in deleted then files else files + [baseFiles[b]];
        b := b + 1;
      }
      MergeAdded(baseFiles, added, deleted, b, a, files);
      files := if added[a].number in deleted then files else files + [added[a]];
    }
    while b < |baseFiles|
      invariant b <= |baseFiles| && Merged(baseFiles, added, deleted, b, |added|, files)
    {
      MergeBase(baseFiles, added, deleted, b, |added|, files);
      files := if baseFiles[b].number in deleted then files else files + [baseFiles[b]];
      b := b + 1;
    }
    assert baseFiles[..b] == baseFiles && added[..|added|] == added;
  }

  // ---------- lemmas for the builder ----------

  lemma OrderedInsert(added: seq<File>, i: nat, f: File)
    requires ValidFiles(added) && InOrder(added) && ValidFile(f) && i <= |added|
    requires forall j :: 0 <= j < i ==> BySmallestKey(added[j], f)
    requires i < |added| ==> !BySmallestKey(added[i], f)
    requires forall g :: g in added ==> g.number != f.number
    ensures ValidFiles(added[..i] + [f] + added[i..]) && InOrder(added[..i] + [f] + added[i..])
    ensures FileSet(added[..i] + [f] + added[i..]) == FileSet(added) + {f}
  {
    assert added == added[..i] + added[i..];
    forall j | i <= j < |added| ensures BySmallestKey(f, added[j]) {
      assert added[i] in added;
      assert j > i ==> BySmallestKey(added[i], added[j]);
    }
    InsertInOrder(added[..i], f, added[i..]);
  }

  lemma InsertInOrder(left: seq<File>, f: File, right: seq<File>)
    requires InOrder(left) && InOrder(right)
    requires forall j :: 0 <= j < |left| ==> BySmallestKey(left[j], f)
    requires forall j :: 0 <= j < |right| ==> BySmallestKey(f, right[j])
    requires forall i, j :: 0 <= i < |left| && 0 <= j < |right| ==> BySmallestKey(left[i], right[j])
    ensures InOrder(left + [f] + right)
  {
  }

  /** The level's state after the deletions of `edit` and its first `n` additions. */
  ghost predicate Partial(before: LevelState, now: LevelState, edit: Edit, n: nat, l: nat)
    requires n <= |edit.added|
  {
    && ValidFiles(now.added) && InOrder(now.added)
    && FileSet(now.added) == FileSet(before.added) + AddedUpTo(edit, n, l)
    && now.deleted == before.deleted + DeletedAt(edit, l) - Numbers(AddedUpTo(edit, n, l))
  }

  ghost function AddedUpTo(e: Edit, n: nat, l: nat): set<File>
    requires n <= |e.added|
  {
    set i | 0 <= i < n && e.added[i].0 == l :: e.added[i].1
  }

  lemma NotAddedBefore(base: set<File>, before: LevelState, now: LevelState, edits: seq<Edit>, edit: Edit, n: nat)
    requires n < |edit.added| && Partial(before, now, edit, n, edit.added[n].0)
    requires FreshIn(EverHeld(base, edits, edit.added[n].0), edit, edit.added[n].0)
    requires Numbers(FileSet(before.added)) <= EverHeld(base, edits, edit.added[n].0)
    ensures forall g :: g in now.added ==> g.number != edit.added[n].1.number
  {
    var l, f := edit.added[n].0, edit.added[n].1;
    assert edit.added[n] in edit.added;
    assert f in AddedAt(edit, l) && f.number in Numbers(AddedAt(edit, l));
    forall g | g in now.added ensures g.number != f.number {
      assert g in FileSet(now.added);
      if g in FileSet(before.added) {
        assert g.number in Numbers(FileSet(before.added));
      }
    }
  }

  lemma PartialStep(before: LevelState, prior: LevelState, now: LevelState, edit: Edit, n: nat, l: nat)
    requires n < |edit.added| && Partial(before, prior, edit, n, l)
    requires l != edit.added[n].0 ==> now == prior
    requires l == edit.added[n].0 ==>
               && ValidFiles(now.added) && InOrder(now.added)
               && FileSet(now.added) == FileSet(prior.added) + {edit.added[n].1}
               && now.deleted == prior.deleted - {edit.added[n].1.number}
    ensures Partial(before, now, edit, n + 1, l)
  {
    var f := edit.added[n].1;
    if l == edit.added[n].0 {
      assert AddedUpTo(edit, n + 1, l) == AddedUpTo(edit, n, l) + {f};
      assert Numbers(AddedUpTo(edit, n + 1, l)) == Numbers(AddedUpTo(edit, n, l)) + {f.number};
    } else {
      assert AddedUpTo(edit, n + 1, l) == AddedUpTo(edit, n, l);
    }
  }

  lemma AfterOneMore(base: set<File>, edits: seq<Edit>, e: Edit, l: nat)
    ensures FilesAfter(base, edits + [e], l) == EditLevel(FilesAfter(base, edits, l), e, l)
    ensures EverHeld(base, edits + [e], l) == EverHeld(base, edits, l) + Numbers(AddedAt(e, l))
  {
    Snoc(edits, e);
  }

  /** The builder's bookkeeping says the same as the edit: deletions first, then additions. */
  lemma BookkeepingIsEdit(base: set<File>, added: set<File>, deleted: set<nat>, e: Edit, l: nat)
    requires Numbers(AddedAt(e, l)) !! Numbers(base) + Numbers(added)
    ensures var add, deleted' := AddedAt(e, l), deleted + DeletedAt(e, l) - Numbers(AddedAt(e, l));
            (set f | f in base + (added + add) && f.number !in deleted')
            == EditLevel((set f | f in base + added && f.number !in deleted), e, l)
  {
    var add := AddedAt(e, l);
    forall f | f in add ensures f.number in Numbers(add) {}
    forall f | f in base + added ensures f.number !in Numbers(add) {
      assert f.number in Numbers(base) + Numbers(added);
    }
  }

  lemma ApplyRepresents(base: seq<File>, before: LevelState, now: LevelState, edits: seq<Edit>, edit: Edit, l: nat)
    requires Represents(base, before, edits, l) && Partial(before, now, edit, |edit.added|, l)
    requires FreshIn(EverHeld(FileSet(base), edits, l), edit, l)
    ensures Represents(base, now, edits + [edit], l)
  {
    hide FilesAfter, EverHeld, EditLevel, ValidFiles, InOrder;
    var add := AddedAt(edit, l);
    assert AddedUpTo(edit, |edit.added|, l) == add;
    AfterOneMore(FileSet(base), edits, edit, l);
    BookkeepingIsEdit(FileSet(base), FileSet(before.added), before.deleted, edit, l);
    assert Numbers(FileSet(now.added)) == Numbers(FileSet(before.added)) + Numbers(add);
  }

  /** The first `b` base files and the first `a` added files have been merged into `files`. */
  ghost predicate Merged(baseFiles: seq<File>, added: seq<File>, deleted: set<nat>, b: nat, a: nat, files: seq<File>)
    requires b <= |baseFiles| && a <= |added|
  {
    && ValidFiles(files) && InOrder(files)
    && (forall f :: f in files <==> (f in baseFiles[..b] || f in added[..a]) && f.number !in deleted)
    && (forall i, j :: 0 <= i < |files| && b <= j < |baseFiles| ==> BySmallestKey(files[i], baseFiles[j]))
    && (forall i, j :: 0 <= i < |files| && a <= j < |added| ==> BySmallestKey(files[i], added[j]))
  }

  lemma DistinctAreOrdered(baseFiles: seq<File>, added: seq<File>, b: nat, a: nat)
    requires ValidFiles(baseFiles) && ValidFiles(added) && InOrder(added) && b < |baseFiles| && a < |added|
    requires Numbers(FileSet(baseFiles)) !! Numbers(FileSet(added))
    requires !BySmallestKey(added[a], baseFiles[b])
    ensures forall j :: a <= j < |added| ==> BySmallestKey(baseFiles[b], added[j])
  {
    assert baseFiles[b] in FileSet(baseFiles) && added[a] in FileSet(added);
    assert baseFiles[b].number in Numbers(FileSet(baseFiles)) && added[a].number in Numbers(FileSet(added));
    assert BySmallestKey(baseFiles[b], added[a]);
  }

  lemma MergeBase(baseFiles: seq<File>, added: seq<File>, deleted: set<nat>, b: nat, a: nat, files: seq<File>)
    requires ValidFiles(baseFiles) && InOrder(baseFiles) && b < |baseFiles| && a <= |added|
    requires Merged(baseFiles, added, deleted, b, a, files)
    requires forall j :: a <= j < |added| ==> BySmallestKey(baseFiles[b], added[j])
    ensures Merged(baseFiles, added, deleted, b + 1, a,
                   if baseFiles[b].number in deleted then files else files + [baseFiles[b]])
  {
    assert baseFiles[..b + 1] == baseFiles[..b] + [baseFiles[b]];
  }

  lemma MergeAdded(baseFiles: seq<File>, added: seq<File>, deleted: set<nat>, b: nat, a: nat, files: seq<File>)
    requires InOrder(baseFiles) && ValidFiles(added) && InOrder(added)
    requires b <= |baseFiles| && a < |added|
    requires Merged(baseFiles, added, deleted, b, a, files)
    requires b < |baseFiles| ==> BySmallestKey(added[a], baseFiles[b])
    ensures Merged(baseFiles, added, deleted, b, a + 1,
                   if added[a].number in deleted then files else files + [added[a]])
  {
    assert added[..a + 1] == added[..a] + [added[a]];
    forall j | b <= j < |baseFiles| ensures BySmallestKey(added[a], baseFiles[j]) {
      assert j > b ==> BySmallestKey(baseFiles[b], baseFiles[j]);
    }
  }

  // ---------- the version set ----------

  function ApplyPointers(pointers: map<nat, InternalKey>, updates: seq<(nat, InternalKey)>): map<nat, InternalKey> {
    if updates == [] then pointers
    else
      var u := updates[|updates| - 1];
      ApplyPointers(pointers, updates[..|updates| - 1])[u.0 := u.1]
  }

  ghost function Updated(updates: seq<(nat, InternalKey)>): set<nat> { set u | u in updates :: u.0 }

  lemma {:induction false} UpdatesDecide(p: map<nat, InternalKey>, q: map<nat, InternalKey>,
                                         updates: seq<(nat, InternalKey)>)
    ensures forall l :: l in ApplyPointers(p, updates) <==> l in Updated(updates) || l in p
    ensures forall l :: l in Updated(updates) ==> l in ApplyPointers(p, updates) && l in ApplyPointers(q, updates)
                                                  && ApplyPointers(p, updates)[l] == ApplyPointers(q, updates)[l]
    ensures forall l :: l !in Updated(updates) && l in p ==>
              l in ApplyPointers(p, updates) && ApplyPointers(p, updates)[l] == p[l]
    decreases |updates|
  {
    if updates != [] {
      var init, last := updates[..|updates| - 1], updates[|updates| - 1];
      UpdatesDecide(p, q, init);
      UpdatesDecide(q, p, init);
      assert updates == init + [last];
      assert Updated(updates) == Updated(init) + {last.0};
    }
  }

  /** Recording pointers that are already set changes nothing. */
  lemma UpdatesAreIdempotent(p: map<nat, InternalKey>, updates: seq<(nat, InternalKey)>)
    ensures ApplyPointers(ApplyPointers(p, updates), updates) == ApplyPointers(p, updates)
  {
    UpdatesDecide(p, ApplyPointers(p, updates), updates);
    UpdatesDecide(ApplyPointers(p, updates), p, updates);
  }

  lemma PointersOneMore(pointers: map<nat, InternalKey>, edits: seq<Edit>, e: Edit)
    ensures PointersAfter(pointers, edits + [e]) == ApplyPointers(PointersAfter(pointers, edits), e.compactPointers)
    ensures PointersAfter(pointers, [e]) == ApplyPointers(pointers, e.compactPointers)
  {
    hide ApplyPointers;
    Snoc(edits, e);
    assert [e][..0] == [];
  }

  function PointersAfter(pointers: map<nat, InternalKey>, edits: seq<Edit>): map<nat, InternalKey> {
    if edits == [] then pointers
    else ApplyPointers(PointersAfter(pointers, edits[..|edits| - 1]), edits[|edits| - 1].compactPointers)
  }

  /** The last value recorded for a field. */
  function LastRecorded(edits: seq<Edit>, field: Edit -> Option<nat>): Option<nat> {
    if edits == [] then None
    else if field(edits[|edits| - 1]).Some? then field(edits[|edits| - 1])
    else LastRecorded(edits[..|edits| - 1], field)
  }

  const LOG_NUMBER: Edit -> Option<nat> := (e: Edit) => e.logNumber
  const PREV_LOG_NUMBER: Edit -> Option<nat> := (e: Edit) => e.prevLogNumber
  const NEXT_FILE_NUMBER: Edit -> Option<nat> := (e: Edit) => e.nextFileNumber
  const LAST_SEQUENCE: Edit -> Option<nat> := (e: Edit) => e.lastSequence

  lemma Snoc<T>(s: seq<T>, x: T)
    ensures (s + [x])[..|s + [x]| - 1] == s && (s + [x])[|s + [x]| - 1] == x
  {
  }

  lemma {:induction false} DistinctAfter(base: set<File>, edits: seq<Edit>, l: nat)
    requires NeverReadded(base, edits, l)
    requires forall f, g :: f in base && g in base && f.number == g.number ==> f == g
    ensures forall f, g ::
              f in FilesAfter(base, edits, l) && g in FilesAfter(base, edits, l) && f.number == g.number ==> f == g
  {
    if edits != [] {
      var earlier, e := edits[..|edits| - 1], edits[|edits| - 1];
      DistinctAfter(base, earlier, l);
      HeldIncludesFiles(base, earlier, l);
      forall f, g | f in FilesAfter(base, edits, l) && g in FilesAfter(base, edits, l) && f.number == g.number
        ensures f == g
      {
        OldAndNewDiffer(base, earlier, e, l, f, g);
        OldAndNewDiffer(base, earlier, e, l, g, f);
        if f in AddedAt(e, l) && g in AddedAt(e, l) {
          var i :| 0 <= i < |e.added| && e.added[i] == (l, f);
          var j :| 0 <= j < |e.added| && e.added[j] == (l, g);
        }
      }
    }
  }

  lemma OldAndNewDiffer(base: set<File>, earlier: seq<Edit>, e: Edit, l: nat, f: File, g: File)
    requires FreshIn(EverHeld(base, earlier, l), e, l)
    requires Numbers(FilesAfter(base, earlier, l)) <= EverHeld(base, earlier, l)
    ensures f in FilesAfter(base, earlier, l) && g in AddedAt(e, l) ==> f.number != g.number
  {
    if f in FilesAfter(base, earlier, l) && g in AddedAt(e, l) {
      assert f.number in Numbers(FilesAfter(base, earlier, l)) && g.number in Numbers(AddedAt(e, l));
    }
  }

  /** A well-formed version with its compaction pointers. */
  ghost predicate ValidVersion(levels: seq<seq<File>>, pointers: map<nat, InternalKey>) {
    && |levels| == NUM_LEVELS
    && (forall l :: 0 <= l < NUM_LEVELS ==> Lists(levels[l], FileSet(levels[l])))
    && (forall l :: 0 <= l < NUM_LEVELS ==> NumbersIdentify(FileSet(levels[l])))
    && (forall l :: l in pointers ==> l < NUM_LEVELS)
  }

  ghost predicate NumbersIdentify(files: set<File>) {
    forall f, g :: f in files && g in files && f.number == g.number ==> f == g
  }

  /** The records of an open descriptor log. */
  ghost predicate ValidRecords(records: seq<Edit>) {
    && (forall i :: 0 <= i < |records| ==> ValidEdit(records[i]))
    && (forall l :: 0 <= l < NUM_LEVELS ==> NeverReadded({}, records, l))
  }

  /** Replaying `records` gives the files of `levels`. */
  ghost predicate ReplaysTo(records: seq<Edit>, levels: seq<seq<File>>)
    requires |levels| == NUM_LEVELS
  {
    forall l :: 0 <= l < NUM_LEVELS ==> FileSet(levels[l]) == FilesAfter({}, records, l)
  }

  lemma {:induction false} PointerLevels(pointers: map<nat, InternalKey>, updates: seq<(nat, InternalKey)>)
    requires forall l :: l in pointers ==> l < NUM_LEVELS
    requires forall i :: 0 <= i < |updates| ==> updates[i].0 < NUM_LEVELS
    ensures forall l :: l in ApplyPointers(pointers, updates) ==> l < NUM_LEVELS
  {
    if updates != [] {
      PointerLevels(pointers, updates[..|updates| - 1]);
    }
  }

  lemma PointersStayValid(levels: seq<seq<File>>, pointers: map<nat, InternalKey>, updates: seq<(nat, InternalKey)>)
    requires ValidVersion(levels, pointers)
    requires forall i :: 0 <= i < |updates| ==> updates[i].0 < NUM_LEVELS
    ensures ValidVersion(levels, ApplyPointers(pointers, updates))
  {
    PointerLevels(pointers, updates);
  }

  lemma {:induction false} PointerLevelsAfter(records: seq<Edit>)
    requires forall i :: 0 <= i < |records| ==> ValidEdit(records[i])
    ensures forall l :: l in PointersAfter(map[], records) ==> l < NUM_LEVELS
  {
    if records != [] {
      var earlier, e := records[..|records| - 1], records[|records| - 1];
      PointerLevelsAfter(earlier);
      PointerLevels(PointersAfter(map[], earlier), e.compactPointers);
    }
  }

  /** One more builder over the current version is the same as one more record to replay. */
  lemma AppendedRecord(records: seq<Edit>, levels: seq<seq<File>>, pointers: map<nat, InternalKey>, e: Edit,
                       v: seq<seq<File>>)
    requires ValidVersion(levels, pointers)
    requires ValidRecords(records) && ValidEdit(e)
    requires |levels| == NUM_LEVELS && ReplaysTo(records, levels)
    requires forall l :: 0 <= l < NUM_LEVELS ==> FreshIn(EverHeld({}, records, l), e, l)
    requires |v| == NUM_LEVELS && forall l :: 0 <= l < NUM_LEVELS ==>
               Lists(v[l], FilesAfter(FileSet(levels[l]), [e], l))
    ensures ValidRecords(records + [e]) && ReplaysTo(records + [e], v)
    ensures forall l :: 0 <= l < NUM_LEVELS ==> Lists(v[l], EditLevel(FileSet(levels[l]), e, l))
    ensures ValidVersion(v, pointers)
  {
    Snoc(records, e);
    assert [e][..0] == [];
    forall l | 0 <= l < NUM_LEVELS
      ensures NeverReadded({}, records + [e], l) && FileSet(v[l]) == FilesAfter({}, records + [e], l)
      ensures NumbersIdentify(FileSet(v[l])) && Lists(v[l], EditLevel(FileSet(levels[l]), e, l))
      ensures Lists(v[l], FileSet(v[l]))
    {
      assert FilesAfter(FileSet(levels[l]), [e], l) == EditLevel(FilesAfter(FileSet(levels[l]), [], l), e, l);
      DistinctAfter({}, records + [e], l);
    }
  }

  lemma FreshForCurrent(records: seq<Edit>, levels: seq<seq<File>>, e: Edit)
    requires |levels| == NUM_LEVELS && ReplaysTo(records, levels)
    requires forall l :: 0 <= l < NUM_LEVELS ==> FreshIn(EverHeld({}, records, l), e, l)
    ensures forall l :: 0 <= l < NUM_LEVELS ==> FreshIn(EverHeld(FileSet(levels[l]), [], l), e, l)
  {
    forall l | 0 <= l < NUM_LEVELS ensures FreshIn(EverHeld(FileSet(levels[l]), [], l), e, l) {
      HeldIncludesFiles({}, records, l);
      assert EverHeld(FileSet(levels[l]), [], l) == Numbers(FileSet(levels[l]));
    }
  }

  lemma SameFiles(e: Edit, e': Edit)
    requires e.added == e'.added && e.deleted == e'.deleted
    ensures forall held, l :: FreshIn(held, e, l) <==> FreshIn(held, e', l)
    ensures forall l :: AddedAt(e, l) == AddedAt(e', l)
    ensures forall files, l :: EditLevel(files, e, l) == EditLevel(files, e', l)
  {
    assert forall l :: AddedAt(e, l) == AddedAt(e', l) && DeletedAt(e, l) == DeletedAt(e', l);
  }

  lemma FullyRecorded(records: seq<Edit>, e: Edit)
    requires e.logNumber.Some? && e.prevLogNumber.Some? && e.nextFileNumber.Some? && e.lastSequence.Some?
    ensures LastRecorded(records + [e], LOG_NUMBER) == e.logNumber
    ensures LastRecorded(records + [e], PREV_LOG_NUMBER) == e.prevLogNumber
    ensures LastRecorded(records + [e], NEXT_FILE_NUMBER) == e.nextFileNumber
    ensures LastRecorded(records + [e], LAST_SEQUENCE) == e.lastSequence
  {
    Snoc(records, e);
  }

  lemma StartsFromSnapshot(levels: seq<seq<File>>, snapshot: Edit)
    requires |levels| == NUM_LEVELS && ValidEdit(snapshot) && snapshot.deleted == {}
    requires forall l :: 0 <= l < NUM_LEVELS ==> AddedAt(snapshot, l) == FileSet(levels[l]) && FreshIn({}, snapshot, l)
    ensures ValidRecords([snapshot]) && ReplaysTo([snapshot], levels)
    ensures forall l :: 0 <= l < NUM_LEVELS ==> EverHeld({}, [snapshot], l) == Numbers(FileSet(levels[l]))
  {
    assert [snapshot][..0] == [];
    forall l | 0 <= l < NUM_LEVELS
      ensures FilesAfter({}, [snapshot], l) == FileSet(levels[l])
      ensures EverHeld({}, [snapshot], l) == Numbers(FileSet(levels[l]))
      ensures NeverReadded({}, [snapshot], l)
    {
      assert FilesAfter({}, [], l) == {} && EverHeld({}, [], l) == {};
      assert FilesAfter({}, [snapshot], l) == EditLevel({}, snapshot, l);
      assert NeverReadded({}, [], l);
    }
  }

  class VersionSet {
    var levels: seq<seq<File>>
    var compactPointers: map<nat, InternalKey>
    var logNumber: nat
    var prevLogNumber: nat
    var nextFileNumber: nat
    var lastSequence: nat
    /** Records of the open descriptor log; empty while there is none. */
    var manifest: seq<Edit>

    /** Replaying the descriptor log gives the current version. */
    ghost predicate ManifestIsCurrent()
      requires |levels| == NUM_LEVELS
      reads this
    {
      && ValidRecords(manifest) && ReplaysTo(manifest, levels)
      && LastRecorded(manifest, LOG_NUMBER) == Some(logNumber)
      && LastRecorded(manifest, PREV_LOG_NUMBER) == Some(prevLogNumber)
      && LastRecorded(manifest, NEXT_FILE_NUMBER).Some? && LastRecorded(manifest, LAST_SEQUENCE).Some?
    }

    /** All but the compaction pointers, which LogAndApply moves first. */
    ghost predicate FilesCurrent()
      reads this
    {
      ValidVersion(levels, compactPointers) && (manifest != [] ==> ManifestIsCurrent())
    }

    ghost predicate Valid()
      reads this
    {
      FilesCurrent() && (manifest != [] ==> PointersAfter(map[], manifest) == compactPointers)
    }

    /** The numbers that a later edit may not add to level `l`. */
    ghost function Held(l: nat): set<nat>
      requires l < |levels|
      reads this
    {
      if manifest == [] then Numbers(FileSet(levels[l])) else EverHeld({}, manifest, l)
    }

    /** The descriptor log accounts for `flushed` writes and for every file number the levels ever held. */
    ghost predicate Recorded(flushed: nat)
      reads this
    {
      && manifest != [] && |levels| == NUM_LEVELS
      && var last, next := LastRecorded(manifest, LAST_SEQUENCE), LastRecorded(manifest, NEXT_FILE_NUMBER);
      && last.Some? && flushed <= last.value <= lastSequence
      && next.Some? && logNumber < next.value <= nextFileNumber
      && forall l, n :: 0 <= l < NUM_LEVELS && n in Held(l) ==> n < next.value
    }

    /** Before anything is recorded, the numbers in use are those of the files. */
    lemma HeldWhenUnrecorded()
      requires manifest == []
      ensures forall l :: 0 <= l < |levels| ==> Held(l) == Numbers(FileSet(levels[l]))
    {
    }

    lemma LevelsAreLists()
      requires Valid()
      ensures |levels| == NUM_LEVELS && forall l :: 0 <= l < NUM_LEVELS ==> Lists(levels[l], FileSet(levels[l]))
    {
    }

    lemma FilesHaveOwnNumbers()
      requires Valid()
      ensures |levels| == NUM_LEVELS && forall l :: 0 <= l < NUM_LEVELS ==> NumbersIdentify(FileSet(levels[l]))
    {
    }

    constructor ()
      ensures Valid() && manifest == [] && levels == seq(NUM_LEVELS, _ => []) && compactPointers == map[]
      ensures nextFileNumber == 2 && logNumber == prevLogNumber == lastSequence == 0
    {
      levels := seq(NUM_LEVELS, _ => []);
      compactPointers := map[];
      logNumber, prevLogNumber, nextFileNumber, lastSequence := 0, 0, 2, 0;
      manifest := [];
    }

    method NewFileNumber() returns (n: nat)
      requires Valid()
      modifies this`nextFileNumber
      ensures Valid() && n == old(nextFileNumber) && nextFileNumber == n + 1
      ensures forall l :: 0 <= l < |levels| ==> Held(l) == old(Held(l))
      ensures forall m: nat :: old(Recorded(m)) ==> Recorded(m)
    {
      n := nextFileNumber;
      nextFileNumber := nextFileNumber + 1;
    }

    /** NewFileNumber for each of several files. */
    method NewFileNumbers(count: nat)
      requires Valid()
      modifies this`nextFileNumber
      ensures Valid() && nextFileNumber == old(nextFileNumber) + count
      ensures forall l :: 0 <= l < |levels| ==> Held(l) == old(Held(l))
      ensures forall n: nat :: old(Recorded(n)) ==> Recorded(n)
    {
      nextFileNumber := nextFileNumber + count;
    }

    /** Keeps later file numbers above one that is in use. */
    method MarkFileNumberUsed(n: nat)
      requires Valid()
      modifies this`nextFileNumber
      ensures Valid() && nextFileNumber == if old(nextFileNumber) <= n then n + 1 else old(nextFileNumber)
      ensures forall l :: 0 <= l < |levels| ==> Held(l) == old(Held(l))
      ensures forall m: nat :: old(Recorded(m)) ==> Recorded(m)
    {
      if nextFileNumber <= n {
        nextFileNumber := n + 1;
      }
    }

    method SetLastSequence(s: nat)
      requires Valid() && s >= lastSequence
      modifies this`lastSequence
      ensures Valid() && lastSequence == s
      ensures forall l :: 0 <= l < |levels| ==> Held(l) == old(Held(l))
      ensures forall n: nat :: old(Recorded(n)) ==> Recorded(n)
    {
      lastSequence := s;
    }

    /** One record that lists the whole current version. */
    method Snapshot() returns (edit: Edit)
      requires ValidVersion(levels, compactPointers)
      ensures ValidEdit(edit) && edit.deleted == {}
      ensures forall l :: 0 <= l < NUM_LEVELS ==> AddedAt(edit, l) == FileSet(levels[l]) && FreshIn({}, edit, l)
      ensures ApplyPointers(map[], edit.compactPointers) == compactPointers
    {
      hide SnapshotUpTo, AddedAt, FreshIn, Lists, NumbersIdentify;
      var pointers: seq<(nat, InternalKey)> := [];
      for l := 0 to NUM_LEVELS
        invariant forall i :: 0 <= i < |pointers| ==> pointers[i].0 < NUM_LEVELS
        invariant ApplyPointers(map[], pointers) == map k | k in compactPointers && k < l :: compactPointers[k]
      {
        if l in compactPointers {
          Snoc(pointers, (l, compactPointers[l]));
          pointers := pointers + [(l, compactPointers[l])];
        }
      }
      var added: seq<(nat, File)> := [];
      NothingListed(levels);
      for l := 0 to NUM_LEVELS
        invariant SnapshotUpTo(levels, l, 0, added)
      {
        LevelFacts(levels[l]);
        for i := 0 to |levels[l]|
          invariant SnapshotUpTo(levels, l, i, added)
        {
          SnapshotStep(levels, l, i, added);
          added := added + [(l, levels[l][i])];
        }
        LevelListed(levels, l, added);
      }
      edit := Edit(None, None, None, None, pointers, {}, added);
      AllListed(levels, edit);
    }

    /** The records of the descriptor log, which on first use starts with a snapshot of the current version. */
    method DescriptorLog(ghost e: Edit) returns (records: seq<Edit>)
      requires FilesCurrent()
      requires forall l :: 0 <= l < NUM_LEVELS ==> FreshIn(Held(l), e, l)
      ensures manifest != [] ==> records == manifest
      ensures manifest == [] ==> PointersAfter(map[], records) == compactPointers
      ensures ValidRecords(records) && ReplaysTo(records, levels)
      ensures forall l :: 0 <= l < NUM_LEVELS ==> FreshIn(EverHeld({}, records, l), e, l)
      ensures records != [] && forall l :: 0 <= l < NUM_LEVELS ==> EverHeld({}, records, l) == Held(l)
    {
      records := manifest;
      if manifest == [] {
        var snapshot := Snapshot();
        records := [snapshot];
        PointersOneMore(map[], [], snapshot);
        StartsFromSnapshot(levels, snapshot);
      }
      forall l | 0 <= l < NUM_LEVELS ensures FreshIn(EverHeld({}, records, l), e, l) {
        assert FreshIn(Held(l), e, l);
      }
    }

    /**
     Installs an edit: a new version is built from the current one and the edit
     is appended to the descriptor log, which on first use starts with a
     snapshot of the version before the edit.
     */
    method LogAndApply(e: Edit)
      requires Valid() && ValidEdit(e)
      requires e.logNumber.Some? ==> logNumber <= e.logNumber.value < nextFileNumber
      requires forall l :: 0 <= l < NUM_LEVELS ==> FreshIn(Held(l), e, l)
      modifies this
      ensures Valid() && manifest != []
      ensures forall l :: 0 <= l < NUM_LEVELS ==> Lists(levels[l], EditLevel(FileSet(old(levels)[l]), e, l))
      ensures compactPointers == ApplyPointers(old(compactPointers), e.compactPointers)
      ensures logNumber == if e.logNumber.Some? then e.logNumber.value else old(logNumber)
      ensures prevLogNumber == if e.prevLogNumber.Some? then e.prevLogNumber.value else old(prevLogNumber)
      ensures nextFileNumber == old(nextFileNumber) && lastSequence == old(lastSequence)
      ensures LastRecorded(manifest, NEXT_FILE_NUMBER) == Some(nextFileNumber)
      ensures LastRecorded(manifest, LAST_SEQUENCE) == Some(lastSequence)
      ensures old(manifest) != [] ==> |manifest| == |old(manifest)| + 1 && old(manifest) <= manifest
      ensures forall l :: 0 <= l < NUM_LEVELS ==> Held(l) == old(Held(l)) + Numbers(AddedAt(e, l))
    {
      hide ReplaysTo, ValidRecords, LastRecorded, ApplyPointers, PointersAfter, FreshIn, AddedAt, EverHeld, FilesAfter;
      var edit := e.(logNumber := if e.logNumber.Some? then e.logNumber else Some(logNumber),
      prevLogNumber := if e.prevLogNumber.Some? then e.prevLogNumber else Some(prevLogNumber),
      nextFileNumber := Some(nextFileNumber), lastSequence := Some(lastSequence));
      SameFiles(e, edit);
      PointersStayValid(levels, compactPointers, edit.compactPointers);
      compactPointers := ApplyPointers(compactPointers, edit.compactPointers);
      forall l | 0 <= l < NUM_LEVELS ensures FreshIn(Held(l), edit, l) {
        assert Held(l) == old(Held(l)) && FreshIn(old(Held(l)), e, l);
      }
      var records := DescriptorLog(edit);
      FreshForCurrent(records, levels, edit);
      var v := BuildNext(levels, compactPointers, edit);
      AppendedRecord(records, levels, compactPointers, edit, v);
      FullyRecorded(records, edit);
      PointersOneMore(map[], records, edit);
      UpdatesAreIdempotent(old(compactPointers), edit.compactPointers);
      forall l | 0 <= l < NUM_LEVELS
        ensures EverHeld({}, records + [edit], l) == old(Held(l)) + Numbers(AddedAt(e, l))
      {
        AfterOneMore({}, records, edit, l);
      }
      manifest := records + [edit];
      levels := v;
      logNumber, prevLogNumber := edit.logNumber.value, edit.prevLogNumber.value;
    }

    /** Rebuilds the version from descriptor records with a single builder. */
    method Recover(records: seq<Edit>) returns (ok: bool)
      requires levels == seq(NUM_LEVELS, _ => []) && compactPointers == map[] && manifest == []
      requires forall i :: 0 <= i < |records| ==> ValidEdit(records[i])
      requires forall l, n :: 0 <= l < NUM_LEVELS && 0 <= n <= |records| ==> NeverReadded({}, records[..n], l)
      modifies this
      ensures manifest == []
      ensures ok <==> LastRecorded(records, NEXT_FILE_NUMBER).Some? && LastRecorded(records, LOG_NUMBER).Some?
                      && LastRecorded(records, LAST_SEQUENCE).Some?
      ensures compactPointers == PointersAfter(map[], records)
      ensures ok ==> ValidVersion(levels, compactPointers) && forall l :: 0 <= l < NUM_LEVELS ==>
                Lists(levels[l], FilesAfter({}, records, l))
      ensures ok ==> Some(logNumber) == LastRecorded(records, LOG_NUMBER)
      ensures ok ==> prevLogNumber == (var p := LastRecorded(records, PREV_LOG_NUMBER); if p.Some? then p.value else 0)
      ensures ok ==> nextFileNumber == LastRecorded(records, NEXT_FILE_NUMBER).value + 1
      ensures ok ==> Some(lastSequence) == LastRecorded(records, LAST_SEQUENCE)
    {
      var v, log, prevLog, nextFile, sequence := Replay(records);
      compactPointers := v.1;
      ok := nextFile.Some? && log.Some? && sequence.Some?;
      if ok {
        levels := v.0;
        logNumber := log.value;
        prevLogNumber := if prevLog.Some? then prevLog.value else 0;
        nextFileNumber := nextFile.value + 1;
        lastSequence := sequence.value;
        PointerLevelsAfter(records);
        assert records[..|records|] == records;
        forall l | 0 <= l < NUM_LEVELS ensures NumbersIdentify(FileSet(v.0[l])) {
          DistinctAfter({}, records, l);
        }
      }
    }
  }

  method BuildNext(levels: seq<seq<File>>, ghost pointers: map<nat, InternalKey>, edit: Edit)
    returns (v: seq<seq<File>>)
    requires ValidVersion(levels, pointers)
    requires ValidEdit(edit)
    requires forall l :: 0 <= l < NUM_LEVELS ==> FreshIn(EverHeld(FileSet(levels[l]), [], l), edit, l)
    ensures |v| == NUM_LEVELS
    ensures forall l :: 0 <= l < NUM_LEVELS ==> Lists(v[l], FilesAfter(FileSet(levels[l]), [edit], l))
  {
    var builder := new Builder(levels);
    builder.Apply(edit, []);
    assert [] + [edit] == [edit];
    v := builder.SaveTo([edit]);
  }

  /** Recover's loop: one builder takes every record, the last value of each field wins. */
  method Replay(records: seq<Edit>)
    returns (v: (seq<seq<File>>, map<nat, InternalKey>), log: Option<nat>, prevLog: Option<nat>, nextFile: Option<nat>,
             sequence: Option<nat>)
    requires forall i :: 0 <= i < |records| ==> ValidEdit(records[i])
    requires forall l, n :: 0 <= l < NUM_LEVELS && 0 <= n <= |records| ==> NeverReadded({}, records[..n], l)
    ensures |v.0| == NUM_LEVELS && forall l :: 0 <= l < NUM_LEVELS ==> Lists(v.0[l], FilesAfter({}, records, l))
    ensures v.1 == PointersAfter(map[], records)
    ensures log == LastRecorded(records, LOG_NUMBER) && prevLog == LastRecorded(records, PREV_LOG_NUMBER)
    ensures nextFile == LastRecorded(records, NEXT_FILE_NUMBER) && sequence == LastRecorded(records, LAST_SEQUENCE)
  {
    hide FilesAfter, PointersAfter, LastRecorded, NeverReadded, ApplyPointers, ValidEdit, FreshIn, Builder.Valid,
         EverHeld, Lists;
    log, prevLog, nextFile, sequence := None, None, None, None;
    var pointers := map[];
    var builder := new Builder(seq(NUM_LEVELS, _ => []));
    NothingRecorded();
    assert records[..0] == [];
    assert forall l :: 0 <= l < NUM_LEVELS ==> FileSet(builder.base[l]) == {};
    for i := 0 to |records|
      invariant builder.Valid(records[..i]) && fresh(builder)
      invariant pointers == PointersAfter(map[], records[..i])
      invariant log == LastRecorded(records[..i], LOG_NUMBER) && prevLog == LastRecorded(records[..i], PREV_LOG_NUMBER)
      invariant nextFile == LastRecorded(records[..i], NEXT_FILE_NUMBER)
      invariant sequence == LastRecorded(records[..i], LAST_SEQUENCE)
    {
      var edit := records[i];
      assert records[..i + 1] == records[..i] + [edit];
      PointersOneMore(map[], records[..i], edit);
      RecordedOneMore(records[..i], edit);
      forall l | 0 <= l < NUM_LEVELS ensures FreshIn(EverHeld(FileSet(builder.base[l]), records[..i], l), edit, l) {
        assert NeverReadded({}, records[..i + 1], l);
        NextIsFresh({}, records[..i], edit, l);
      }
      pointers := ApplyPointers(pointers, edit.compactPointers);
      builder.Apply(edit, records[..i]);
      log := if edit.logNumber.Some? then edit.logNumber else log;
      prevLog := if edit.prevLogNumber.Some? then edit.prevLogNumber else prevLog;
      nextFile := if edit.nextFileNumber.Some? then edit.nextFileNumber else nextFile;
      sequence := if edit.lastSequence.Some? then edit.lastSequence else sequence;
    }
    assert records[..|records|] == records;
    var saved := builder.SaveTo(records);
    v := (saved, pointers);
  }

  lemma NothingRecorded()
    ensures PointersAfter(map[], []) == map[]
    ensures LastRecorded([], LOG_NUMBER) == LastRecorded([], PREV_LOG_NUMBER) == None
    ensures LastRecorded([], NEXT_FILE_NUMBER) == LastRecorded([], LAST_SEQUENCE) == None
  {
  }

  lemma RecordedOneMore(records: seq<Edit>, e: Edit)
    ensures LastRecorded(records + [e], LOG_NUMBER) == if e.logNumber.Some? then e.logNumber
                                                       else LastRecorded(records, LOG_NUMBER)
    ensures LastRecorded(records + [e], PREV_LOG_NUMBER) ==
              if e.prevLogNumber.Some? then e.prevLogNumber else LastRecorded(records, PREV_LOG_NUMBER)
    ensures LastRecorded(records + [e], NEXT_FILE_NUMBER) ==
              if e.nextFileNumber.Some? then e.nextFileNumber else LastRecorded(records, NEXT_FILE_NUMBER)
    ensures LastRecorded(records + [e], LAST_SEQUENCE) == if e.lastSequence.Some? then e.lastSequence
                                                          else LastRecorded(records, LAST_SEQUENCE)
  {
    Snoc(records, e);
  }

  lemma NextIsFresh(base: set<File>, edits: seq<Edit>, e: Edit, l: nat)
    requires NeverReadded(base, edits + [e], l)
    ensures FreshIn(EverHeld(base, edits, l), e, l)
  {
    hide EverHeld, FreshIn;
    Snoc(edits, e);
  }

  /** The snapshot so far lists levels below `l` and the first `i` files of level `l`. */
  ghost predicate SnapshotUpTo(levels: seq<seq<File>>, l: nat, i: nat, added: seq<(nat, File)>) {
    && l <= |levels| && (i == 0 || (l < |levels| && i <= |levels[l]|))
    && (forall a :: a in added <==> (a.0 < l && a.1 in levels[a.0]) || (i > 0 && a.0 == l && a.1 in levels[l][..i]))
    && (forall m, n :: 0 <= m < n < |added| && added[m].0 == added[n].0 ==> added[m].1.number != added[n].1.number)
  }

  lemma NothingListed(levels: seq<seq<File>>)
    ensures SnapshotUpTo(levels, 0, 0, [])
  {
  }

  lemma LevelFacts(files: seq<File>)
    requires Lists(files, FileSet(files)) && NumbersIdentify(FileSet(files))
    ensures ValidFiles(files) && InOrder(files)
    ensures forall f, g :: f in files && g in files && f.number == g.number ==> f == g
  {
    assert forall f :: f in files <==> f in FileSet(files);
  }

  lemma LevelListed(levels: seq<seq<File>>, l: nat, added: seq<(nat, File)>)
    requires l < |levels| && SnapshotUpTo(levels, l, |levels[l]|, added)
    ensures SnapshotUpTo(levels, l + 1, 0, added)
  {
    assert levels[l][..|levels[l]|] == levels[l];
  }

  /** Listing every level gives the whole version and no number twice. */
  lemma AllListed(levels: seq<seq<File>>, edit: Edit)
    requires |levels| == NUM_LEVELS && SnapshotUpTo(levels, NUM_LEVELS, 0, edit.added)
    requires forall l :: 0 <= l < NUM_LEVELS ==> Lists(levels[l], FileSet(levels[l]))
    ensures forall l :: 0 <= l < NUM_LEVELS ==> AddedAt(edit, l) == FileSet(levels[l]) && FreshIn({}, edit, l)
    ensures forall i :: 0 <= i < |edit.added| ==> edit.added[i].0 < NUM_LEVELS && ValidFile(edit.added[i].1)
  {
    forall l | 0 <= l < NUM_LEVELS ensures AddedAt(edit, l) == FileSet(levels[l]) && FreshIn({}, edit, l) {
      forall f | f in FileSet(levels[l]) ensures f in AddedAt(edit, l) { assert (l, f) in edit.added; }
    }
    forall i | 0 <= i < |edit.added| ensures edit.added[i].0 < NUM_LEVELS && ValidFile(edit.added[i].1) {
      assert edit.added[i] in edit.added;
    }
  }

  lemma SnapshotStep(levels: seq<seq<File>>, l: nat, i: nat, added: seq<(nat, File)>)
    requires l < |levels| && i < |levels[l]| && SnapshotUpTo(levels, l, i, added)
    requires ValidFiles(levels[l]) && InOrder(levels[l])
    requires forall f, g :: f in levels[l] && g in levels[l] && f.number == g.number ==> f == g
    ensures SnapshotUpTo(levels, l, i + 1, added + [(l, levels[l][i])])
  {
    var f := levels[l][i];
    assert levels[l][..i + 1] == levels[l][..i] + [f];
    forall m | 0 <= m < |added| && added[m].0 == l ensures added[m].1.number != f.number {
      assert added[m] in added;
      assert added[m].1 in levels[l][..i];
      var k :| 0 <= k < i && levels[l][k] == added[m].1;
      assert BySmallestKey(levels[l][k], levels[l][i]);
      assert levels[l][k] in levels[l];
    }
  }

  lemma {:induction false} PrefixesNeverReadd(edits: seq<Edit>, n: nat, l: nat)
    requires NeverReadded({}, edits, l) && n <= |edits|
    ensures NeverReadded({}, edits[..n], l)
  {
    if n == |edits| {
      assert edits[..n] == edits;
    } else {
      PrefixesNeverReadd(edits[..|edits| - 1], n, l);
      assert edits[..|edits| - 1][..n] == edits[..n];
    }
  }

  /** Crash and recover: replaying the descriptor log of `live` into a new version set gives the same version. */
  method Reopen(manifest: seq<Edit>, ghost live: VersionSet) returns (recovered: VersionSet)
    requires live.Valid() && live.manifest == manifest != []
    ensures fresh(recovered) && recovered.Valid() && recovered.manifest == []
    ensures recovered.levels == live.levels
    ensures recovered.logNumber == live.logNumber && recovered.prevLogNumber == live.prevLogNumber
    ensures recovered.compactPointers == live.compactPointers
    ensures recovered.nextFileNumber == LastRecorded(manifest, NEXT_FILE_NUMBER).value + 1
    ensures recovered.lastSequence == LastRecorded(manifest, LAST_SEQUENCE).value
  {
    recovered := new VersionSet();
    forall l, n | 0 <= l < NUM_LEVELS && 0 <= n <= |manifest| ensures NeverReadded({}, manifest[..n], l) {
      PrefixesNeverReadd(manifest, n, l);
    }
    var ok := recovered.Recover(manifest);
    forall l | 0 <= l < NUM_LEVELS ensures recovered.levels[l] == live.levels[l] {
      ListsUnique(recovered.levels[l], live.levels[l], FileSet(live.levels[l]));
    }
  }
}
