/**
 The iterator over the whole database (db/db_impl.cc NewInternalIterator,
 db/version_set.cc AddIterators): one child for each memtable, each level-0 file
 and each deeper level. Its entries are exactly what the database stores, so the
 keys shown at a snapshot are the map after that many writes.
 */
module DbIterators {
  import opened Wrappers
  import opened Keys
  import opened Mvcc
  import opened Cursors
  import opened Versions
  import opened Compactions
  import opened Database
  import DbImpl
  import DbIter
  import Merger
  import TwoLevel

  // ---------- a level above 0 ----------

  /** The index of the concatenating iterator: largest key and number of each file. */
  function LevelIndex(files: seq<File>): (index: seq<TwoLevel.IndexEntry>)
    ensures |index| == |files|
  {
    seq(|files|, i requires 0 <= i < |files| => TwoLevel.IndexEntry(files[i].Largest(), files[i].number))
  }

  /** Opening a table by its number gives the entries of that file. */
  predicate Opens(files: seq<File>, tableOf: nat -> seq<Entry>) {
    forall i :: 0 <= i < |files| ==> tableOf(files[i].number) == files[i].entries
  }

  lemma {:induction false} FlatLevel(files: seq<File>, tableOf: nat -> seq<Entry>, n: nat)
    requires Opens(files, tableOf) && n <= |files|
    ensures TwoLevel.Flat(LevelIndex(files), tableOf, n) == Flatten(files[..n])
  {
    if n > 0 {
      FlatLevel(files, tableOf, n - 1);
      assert files[..n][..n - 1] == files[..n - 1];
    }
  }

  lemma {:induction false} LevelIsSorted(files: seq<File>)
    requires ValidFiles(files) && Disjoint(files)
    ensures Sorted(Flatten(files))
  {
    if files != [] {
      var init, last := files[..|files| - 1], files[|files| - 1];
      LevelIsSorted(init);
      FlattenMembers(init);
      forall e, x | e in Flatten(init) && x in last.entries ensures Less(e.Ikey(), x.Ikey()) {
        var f :| f in init && e in f.entries;
        var i :| 0 <= i < |init| && init[i] == f;
        assert files[i] == f && Less(f.Largest(), last.Smallest());
        FileBounds(f, e);
        FileBounds(last, x);
      }
      JoinSortedRuns(Flatten(init), last.entries);
    }
  }

  lemma JoinSortedRuns(a: seq<Entry>, b: seq<Entry>)
    requires Sorted(a) && Sorted(b) && forall e, x :: e in a && x in b ==> Less(e.Ikey(), x.Ikey())
    ensures Sorted(a + b)
  {
  }

  /** A level is what the two-level iterator over it ranges over, and its index keys separate the files. */
  lemma LevelIsConcatenated(files: seq<File>, tableOf: nat -> seq<Entry>)
    requires ValidFiles(files) && Disjoint(files) && Opens(files, tableOf)
    ensures TwoLevel.All(LevelIndex(files), tableOf) == Flatten(files) && TwoLevel.Separates(LevelIndex(files), tableOf)
  {
    FlatLevel(files, tableOf, |files|);
    assert files[..|files|] == files;
    LevelIsSorted(files);
    forall i, e: Entry | 0 <= i < |files| && e in files[i].entries
      ensures !Less(files[i].Largest(), e.Ikey()) && forall j :: 0 <= j < i ==> Less(files[j].Largest(), e.Ikey())
    {
      FileBounds(files[i], e);
    }
  }

  // ---------- the children together ----------

  /** One more child that shares no internal key with the others. */
  lemma ChildJoins(all: seq<Entry>, lists: seq<seq<Entry>>, es: seq<Entry>)
    requires Merger.IsUnion(all, lists) && Sorted(es) && Apart(all, es)
    ensures Merger.IsUnion(Merge(all, es), lists + [es])
    ensures Elems(Merge(all, es)) == Elems(all) + Elems(es)
  {
    hide Sorted, Merge;
    MergeSorted(all, es);
    MergeMembers(all, es);
    OneMoreList(all, lists, es);
    var more := lists + [es];
    forall i, j, a: Entry, b: Entry | 0 <= i < j < |more| && a in more[i] && b in more[j] ensures a.Ikey() != b.Ikey() {
      if j == |lists| {
        assert a in all && b in es;
      }
    }
  }

  lemma OneMoreList(all: seq<Entry>, lists: seq<seq<Entry>>, es: seq<Entry>)
    requires forall e :: e in all <==> exists i :: 0 <= i < |lists| && e in lists[i]
    ensures forall e :: e in all || e in es <==> exists i :: 0 <= i < |lists| + 1 && e in (lists + [es])[i]
  {
    var more := lists + [es];
    forall e ensures e in all || e in es <==> exists i :: 0 <= i < |more| && e in more[i] {
      if e in es { assert e in more[|lists|]; }
      if e in all {
        var i :| 0 <= i < |lists| && e in lists[i];
        assert e in more[i];
      }
    }
  }

  /** What the files of the first `l` levels hold. */
  ghost function StoredAbove(levels: seq<seq<File>>, l: nat): iset<Entry> { iset e | InUpperLevels(levels, l, e) }

  ghost predicate InUpperLevels(levels: seq<seq<File>>, l: nat, e: Entry) {
    exists k :: 0 <= k < l && k < |levels| && InFiles(levels[k], e)
  }

  ghost function Upper(mem: seq<Entry>, imm: Option<seq<Entry>>): iset<Entry> { Elems(mem) + Elems(EntriesOf(imm)) }

  lemma NoChildren()
    ensures Merger.Separate([]) && Merger.IsUnion([], Merger.Lists([])) && Elems([]) == iset{}
    ensures forall es :: Apart([], es)
  {
    assert Merger.Lists([]) == [];
  }

  lemma MemtablesAreApart(mem: seq<Entry>, imm: Option<seq<Entry>>, levels: seq<seq<File>>)
    requires PlacesOrdered(mem, imm, levels)
    ensures Sorted(mem) && (imm.Some? ==> Sorted(imm.value))
    ensures forall all: seq<Entry> :: imm.Some? && Elems(all) == Elems(mem) ==> Apart(all, imm.value)
    ensures Upper(mem, imm) == if imm.Some? then Elems(mem) + Elems(imm.value) else Elems(mem)
  {
    forall all: seq<Entry> | imm.Some? && Elems(all) == Elems(mem) ensures Apart(all, imm.value) {
      forall e, x | e in all && x in imm.value ensures e.Ikey() != x.Ikey() {
        assert e in Elems(all) && x in Elems(EntriesOf(imm)) + StoredFrom(levels, 0);
      }
    }
  }

  lemma UpperIsApart(mem: seq<Entry>, imm: Option<seq<Entry>>, levels: seq<seq<File>>, e: Entry, x: Entry)
    requires PlacesOrdered(mem, imm, levels) && e in Upper(mem, imm) && InLevels(levels, 0, x)
    ensures e.Ikey() != x.Ikey()
  {
    assert x in StoredFrom(levels, 0) && x in Elems(EntriesOf(imm)) + StoredFrom(levels, 0);
  }

  lemma FileIsApart(mem: seq<Entry>, imm: Option<seq<Entry>>, levels: seq<seq<File>>, all: seq<Entry>, i: nat)
    requires PlacesOrdered(mem, imm, levels) && i < |levels[0]|
    requires Elems(all) == Upper(mem, imm) + Stored(levels[0][..i])
    ensures Sorted(levels[0][i].entries) && Apart(all, levels[0][i].entries)
  {
    var f := levels[0][i];
    forall e, x | e in all && x in f.entries ensures e.Ikey() != x.Ikey() {
      assert e in Elems(all) && f in levels[0] && InFiles(levels[0], x);
      if e in Upper(mem, imm) {
        UpperIsApart(mem, imm, levels, e, x);
      } else {
        var g :| g in levels[0][..i] && e in g.entries;
        SameLevelIsApart(levels, 0, g, f);
      }
    }
  }

  lemma LevelIsApart(mem: seq<Entry>, imm: Option<seq<Entry>>, levels: seq<seq<File>>, all: seq<Entry>, l: nat)
    requires PlacesOrdered(mem, imm, levels) && 1 <= l < NUM_LEVELS
    requires Elems(all) == Upper(mem, imm) + StoredAbove(levels, l)
    ensures Sorted(Flatten(levels[l])) && Apart(all, Flatten(levels[l]))
  {
    LevelIsSorted(levels[l]);
    FlattenMembers(levels[l]);
    forall e, x | e in all && x in Flatten(levels[l]) ensures e.Ikey() != x.Ikey() {
      assert e in Elems(all) && InFiles(levels[l], x);
      if e in Upper(mem, imm) {
        UpperIsApart(mem, imm, levels, e, x);
      } else {
        var k :| 0 <= k < l && InFiles(levels[k], e);
        var f :| f in levels[k] && e in f.entries;
        var g :| g in levels[l] && x in g.entries;
        assert Newer(f, g);
        assert e in Elems(f.entries) && x in Elems(g.entries);
      }
    }
  }

  lemma FileStored(files: seq<File>, i: nat)
    requires i < |files|
    ensures Stored(files[..i + 1]) == Stored(files[..i]) + Elems(files[i].entries)
  {
    assert files[..i + 1] == files[..i] + [files[i]];
    forall e ensures InFiles(files[..i + 1], e) <==> InFiles(files[..i], e) || e in files[i].entries {
      if e in files[i].entries { assert files[i] in files[..i + 1]; }
      if InFiles(files[..i], e) {
        var f :| f in files[..i] && e in f.entries;
        assert f in files[..i + 1];
      }
    }
  }

  lemma LevelStored(levels: seq<seq<File>>, l: nat)
    requires l < |levels|
    ensures StoredAbove(levels, l + 1) == StoredAbove(levels, l) + Elems(Flatten(levels[l]))
    ensures levels[l] == [] ==> StoredAbove(levels, l + 1) == StoredAbove(levels, l)
  {
    FlattenMembers(levels[l]);
  }

  lemma StoredInAll(levels: seq<seq<File>>)
    ensures StoredAbove(levels, |levels|) == StoredFrom(levels, 0)
    ensures |levels| > 0 ==> StoredAbove(levels, 1) == Stored(levels[0])
  {
  }

  // ---------- what a snapshot shows ----------

  /** The live pairs at the snapshot are the map after that many writes, in key order. */
  ghost predicate ShowsHistory(all: seq<Entry>, h: History, snapshot: nat)
    requires snapshot <= |h|
  {
    && (forall i, j :: 0 <= i < j < |DbIter.Live(all, snapshot)| ==>
          DbIter.Live(all, snapshot)[i].key < DbIter.Live(all, snapshot)[j].key)
    && (forall key, value :: DbIter.Pair(key, value) in DbIter.Live(all, snapshot)
                             <==> ValueAfter(h[..snapshot], key) == Some(value))
  }

  lemma StoreShowsHistory(all: seq<Entry>, h: History, horizon: nat, snapshot: nat)
    requires Sorted(all) && Faithful(Elems(all), h, horizon) && horizon <= snapshot <= |h|
    ensures ShowsHistory(all, h, snapshot)
  {
    DbIter.LiveIsTheSnapshot(all, snapshot);
    forall key, value
      ensures DbIter.Pair(key, value) in DbIter.Live(all, snapshot) <==> ValueAfter(h[..snapshot], key) == Some(value)
    {
      DbIter.LiveIsHistory(all, h, horizon, snapshot, key);
    }
  }

  // ---------- building it ----------

  /** `tableOf` opens a table file by its number. */
  method NewInternalIterator(db: DbImpl.DB, tableOf: nat -> seq<Entry>) returns (it: Merger.MergingIterator)
    requires db.Valid() && forall l :: 1 <= l < |db.versions.levels| ==> Opens(db.versions.levels[l], tableOf)
    ensures it.Ok() && fresh(it) && Elems(it.all) == db.Stored()
    ensures forall snapshot :: db.horizon <= snapshot <= |db.history| ==> ShowsHistory(it.all, db.history, snapshot)
  {
    hide *;
    db.ValidParts();
    var levels := db.versions.levels;
    var list, all := MemtableIterators(db.mem, db.imm, levels);
    var list', all', _ := AddIterators(db.mem, db.imm, levels, tableOf, list, all);
    UnionIsSorted(all', Merger.Lists(list'));
    it := new Merger.MergingIterator(list', all');
    forall snapshot | db.horizon <= snapshot <= |db.history| ensures ShowsHistory(it.all, db.history, snapshot) {
      StoreShowsHistory(all', db.history, db.horizon, snapshot);
    }
  }

  lemma UnionIsSorted(all: seq<Entry>, lists: seq<seq<Entry>>)
    requires Merger.IsUnion(all, lists)
    ensures Sorted(all)
  {
  }

  method MemtableIterators(mem: seq<Entry>, imm: Option<seq<Entry>>, ghost levels: seq<seq<File>>)
    returns (list: seq<Cursor>, ghost all: seq<Entry>)
    requires PlacesOrdered(mem, imm, levels)
    ensures Merger.Separate(list) && Merger.IsUnion(all, Merger.Lists(list)) && Elems(all) == Upper(mem, imm)
  {
    hide *;
    NoChildren();
    MemtablesAreApart(mem, imm, levels);
    list, all := AddChild([], [], mem);
    if imm.Some? {
      list, all := AddChild(list, all, imm.value);
    }
  }

  method AddChild(list: seq<Cursor>, ghost all: seq<Entry>, es: seq<Entry>)
    returns (list': seq<Cursor>, ghost all': seq<Entry>)
    requires Merger.Separate(list) && Merger.IsUnion(all, Merger.Lists(list)) && Sorted(es) && Apart(all, es)
    ensures Merger.Separate(list') && Merger.IsUnion(all', Merger.Lists(list')) && Elems(all') == Elems(all) + Elems(es)
    ensures |list'| == |list| + 1 && list'[..|list|] == list && fresh(list'[|list|]) && list'[|list|].es == es
  {
    ChildJoins(all, Merger.Lists(list), es);
    var c := new Cursor(es);
    list', all' := list + [c], Merge(all, es);
    assert Merger.Lists(list') == Merger.Lists(list) + [es];
  }

  /** The cursor stands for the two-level iterator: both range over the same list. */
  ghost predicate RangesOver(it: TwoLevel.TwoLevelIterator, c: Cursor) {
    && TwoLevel.Separates(it.indexIter.index, it.blockOf)
    && TwoLevel.All(it.indexIter.index, it.blockOf) == c.es
  }

  method NewConcatenatingIterator(files: seq<File>, tableOf: nat -> seq<Entry>) returns (it: TwoLevel.TwoLevelIterator)
    requires ValidFiles(files) && Disjoint(files) && Opens(files, tableOf)
    ensures fresh(it) && it.Ok() && it.indexIter.index == LevelIndex(files) && it.blockOf == tableOf
    ensures TwoLevel.Separates(it.indexIter.index, it.blockOf)
    ensures TwoLevel.All(it.indexIter.index, it.blockOf) == Flatten(files)
  {
    LevelIsConcatenated(files, tableOf);
    var index := new TwoLevel.IndexCursor(LevelIndex(files));
    it := new TwoLevel.TwoLevelIterator(index, tableOf);
  }

  /** One child for each file of level 0, and one for each deeper level that has files, `deeper`. */
  method AddIterators(ghost mem: seq<Entry>, ghost imm: Option<seq<Entry>>, levels: seq<seq<File>>,
                      tableOf: nat -> seq<Entry>, list: seq<Cursor>, ghost all: seq<Entry>)
    returns (list': seq<Cursor>, ghost all': seq<Entry>, deeper: seq<TwoLevel.TwoLevelIterator>)
    requires PlacesOrdered(mem, imm, levels) && Elems(all) == Upper(mem, imm)
    requires forall l :: 1 <= l < |levels| ==> Opens(levels[l], tableOf)
    requires Merger.Separate(list) && Merger.IsUnion(all, Merger.Lists(list))
    ensures Merger.Separate(list') && Merger.IsUnion(all', Merger.Lists(list'))
    ensures Elems(all') == Contents(mem, imm, levels)
    ensures |levels| == NUM_LEVELS && |list'| == |list| + |levels[0]| + |deeper| && list <= list'
    ensures forall i :: 0 <= i < |levels[0]| ==> list'[|list| + i].es == levels[0][i].entries
    ensures forall i :: 0 <= i < |deeper| ==> RangesOver(deeper[i], list'[|list| + |levels[0]| + i])
  {
    hide PlacesOrdered, Merger.IsUnion, Merger.Separate, StoredAbove, Upper, RangesOver, Contents, Opens;
    LevelCount(mem, imm, levels);
    StoredInAll(levels);
    UpperAndFiles(mem, imm, levels);
    var files, merged := AddFiles(mem, imm, levels, list, all);
    list', all', deeper := AddLevels(mem, imm, levels, tableOf, files, merged);
    forall i | 0 <= i < |levels[0]| ensures list'[|list| + i].es == levels[0][i].entries {
      assert list'[|list| + i] == files[|list| + i];
    }
  }

  method AddFiles(ghost mem: seq<Entry>, ghost imm: Option<seq<Entry>>, levels: seq<seq<File>>, list: seq<Cursor>,
                  ghost all: seq<Entry>)
    returns (list': seq<Cursor>, ghost all': seq<Entry>)
    requires PlacesOrdered(mem, imm, levels) && Elems(all) == Upper(mem, imm)
    requires Merger.Separate(list) && Merger.IsUnion(all, Merger.Lists(list)) && |levels| == NUM_LEVELS
    ensures Merger.Separate(list') && Merger.IsUnion(all', Merger.Lists(list'))
    ensures Elems(all') == Upper(mem, imm) + StoredAbove(levels, 1)
    ensures |list'| == |list| + |levels[0]| && list <= list'
    ensures forall i :: 0 <= i < |levels[0]| ==> list'[|list| + i].es == levels[0][i].entries
  {
    hide PlacesOrdered, Merger.IsUnion, Merger.Separate, Stored, StoredAbove, Upper, Sorted, Apart;
    list', all' := list, all;
    StoredNone(levels);
    StoredInAll(levels);
    for i := 0 to |levels[0]|
      invariant Merger.Separate(list') && Merger.IsUnion(all', Merger.Lists(list'))
      invariant Elems(all') == Upper(mem, imm) + Stored(levels[0][..i])
      invariant |list'| == |list| + i && list <= list'
      invariant forall k :: 0 <= k < i ==> list'[|list| + k].es == levels[0][k].entries
    {
      FileIsApart(mem, imm, levels, all', i);
      FileStored(levels[0], i);
      list', all' := AddChild(list', all', levels[0][i].entries);
    }
    assert levels[0][..|levels[0]|] == levels[0];
  }

  method AddLevels(ghost mem: seq<Entry>, ghost imm: Option<seq<Entry>>, levels: seq<seq<File>>,
                   tableOf: nat -> seq<Entry>, list: seq<Cursor>, ghost all: seq<Entry>)
    returns (list': seq<Cursor>, ghost all': seq<Entry>, deeper: seq<TwoLevel.TwoLevelIterator>)
    requires PlacesOrdered(mem, imm, levels) && Elems(all) == Upper(mem, imm) + StoredAbove(levels, 1)
    requires forall l :: 1 <= l < |levels| ==> Opens(levels[l], tableOf)
    requires Merger.Separate(list) && Merger.IsUnion(all, Merger.Lists(list))
    ensures Merger.Separate(list') && Merger.IsUnion(all', Merger.Lists(list'))
    ensures Elems(all') == Upper(mem, imm) + StoredAbove(levels, |levels|)
    ensures |list'| == |list| + |deeper| && list <= list'
    ensures forall i :: 0 <= i < |deeper| ==> RangesOver(deeper[i], list'[|list| + i])
  {
    hide PlacesOrdered, Merger.IsUnion, Merger.Separate, StoredAbove, Upper, Sorted, Apart, Flatten, RangesOver, Opens,
         ValidFiles, Disjoint;
    LevelCount(mem, imm, levels);
    list', all', deeper := list, all, [];
    for l := 1 to NUM_LEVELS
      invariant Merger.Separate(list') && Merger.IsUnion(all', Merger.Lists(list'))
      invariant Elems(all') == Upper(mem, imm) + StoredAbove(levels, l)
      invariant |list'| == |list| + |deeper| && list <= list'
      invariant forall i :: 0 <= i < |deeper| ==> RangesOver(deeper[i], list'[|list| + i])
    {
      LevelStored(levels, l);
      if levels[l] != [] {
        LevelIsApart(mem, imm, levels, all', l);
        var it := NewConcatenatingIterator(levels[l], tableOf);
        list', all' := AddChild(list', all', Flatten(levels[l]));
        RangesOverLevel(it, list'[|list'| - 1], levels[l]);
        deeper := deeper + [it];
      }
    }
  }

  lemma RangesOverLevel(it: TwoLevel.TwoLevelIterator, c: Cursor, files: seq<File>)
    requires TwoLevel.Separates(it.indexIter.index, it.blockOf)
    requires TwoLevel.All(it.indexIter.index, it.blockOf) == Flatten(files) == c.es
    ensures RangesOver(it, c)
  {
  }

  lemma LevelCount(mem: seq<Entry>, imm: Option<seq<Entry>>, levels: seq<seq<File>>)
    requires PlacesOrdered(mem, imm, levels)
    ensures |levels| == NUM_LEVELS && ValidLevels(levels)
  {
  }

  lemma StoredNone(levels: seq<seq<File>>)
    requires |levels| > 0
    ensures levels[0][..0] == [] && Stored(levels[0][..0]) == iset{}
  {
  }

  lemma UpperAndFiles(mem: seq<Entry>, imm: Option<seq<Entry>>, levels: seq<seq<File>>)
    ensures Upper(mem, imm) + StoredFrom(levels, 0) == Contents(mem, imm, levels)
  {
  }
}
