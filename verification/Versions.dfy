/**
 Tables, levels of tables and the point lookup that searches them
 (db/version_set.cc). A version is the list of files of each of the seven
 levels; it never changes once it has been built.
 */
module Versions {
  import opened Wrappers
  import opened Keys
  import opened Mvcc
  import opened Cursors

  const NUM_LEVELS: nat := 7

  /** A table file: its number, its size in bytes and the versions it stores. */
  datatype File = File(number: nat, size: nat, entries: seq<Entry>) {
    function Smallest(): InternalKey {
      if entries == [] then InternalKey(0.0, 0) else entries[0].Ikey()
    }

    function Largest(): InternalKey {
      if entries == [] then InternalKey(0.0, 0) else entries[|entries| - 1].Ikey()
    }
  }

  predicate ValidFile(f: File) {
    && f.entries != [] && Sorted(f.entries)
    && forall e :: e in f.entries ==> e.seqno <= MAX_SEQUENCE_NUMBER
  }

  predicate ValidFiles(files: seq<File>) { forall i :: 0 <= i < |files| ==> ValidFile(files[i]) }

  /** The order kept by every level above 0. */
  predicate Disjoint(files: seq<File>) {
    forall i, j :: 0 <= i < j < |files| ==> Less(files[i].Largest(), files[j].Smallest())
  }

  ghost function Elems(es: seq<Entry>): iset<Entry> { iset e | e in es }

  ghost predicate InFiles(files: seq<File>, e: Entry) {
    exists f :: f in files && e in f.entries
  }

  ghost function Stored(files: seq<File>): iset<Entry> { iset e | InFiles(files, e) }

  ghost predicate InLevels(levels: seq<seq<File>>, low: nat, e: Entry) {
    exists l :: low <= l < |levels| && InFiles(levels[l], e)
  }

  /** The versions stored at level `low` or deeper. */
  ghost function StoredFrom(levels: seq<seq<File>>, low: nat): iset<Entry> {
    iset e | InLevels(levels, low, e)
  }

  ghost predicate Newer(f: File, g: File) { NewerThan(Elems(f.entries), Elems(g.entries)) }

  predicate ValidLevels(levels: seq<seq<File>>) {
    && |levels| == NUM_LEVELS
    && (forall l :: 0 <= l < NUM_LEVELS ==> ValidFiles(levels[l]))
    && (forall l :: 1 <= l < NUM_LEVELS ==> Disjoint(levels[l]))
  }

  /** What lets a search stop early: a place searched earlier holds only newer versions. */
  ghost predicate Recency(levels: seq<seq<File>>)
    requires |levels| == NUM_LEVELS
  {
    && (forall f, g :: f in levels[0] && g in levels[0] && f.number > g.number ==> Newer(f, g))
    && (forall i, j, f, g :: 0 <= i < j < NUM_LEVELS && f in levels[i] && g in levels[j] ==> Newer(f, g))
  }

  // ---------- searching one sorted run ----------

  /** A lookup reads only the entry the seek lands on. */
  function Lookup(es: seq<Entry>, user: UserKey, snapshot: nat): Option<Entry> {
    var i := SeekPos(es, LookupKey(user, snapshot));
    if i < |es| && es[i].key == user then Some(es[i]) else None
  }

  lemma LookupAnswers(es: seq<Entry>, user: UserKey, snapshot: nat)
    requires Sorted(es)
    ensures Answers(Elems(es), user, snapshot, Lookup(es, user, snapshot))
  {
    var target := LookupKey(user, snapshot);
    SeekPosSplits(es, target);
    var i := SeekPos(es, target);
    forall f | f in es && f.key == user && f.seqno <= snapshot
      ensures i < |es| && es[i].key == user && f.seqno <= es[i].seqno
    {
      var j :| 0 <= j < |es| && es[j] == f;
      assert !Less(es[j].Ikey(), target);
      assert i <= j;
      assert i < j ==> Less(es[i].Ikey(), es[j].Ikey());
    }
  }

  // ---------- searching a level ----------

  /** Binary search for the first file whose largest key is at or after `key`. */
  method FindFile(files: seq<File>, key: InternalKey) returns (index: nat)
    requires ValidFiles(files) && Disjoint(files)
    ensures index <= |files|
    ensures forall i :: 0 <= i < index ==> Less(files[i].Largest(), key)
    ensures forall i :: index <= i < |files| ==> !Less(files[i].Largest(), key)
  {
    var left, right := 0, |files|;
    while left < right
      invariant 0 <= left <= right <= |files|
      invariant forall i :: 0 <= i < left ==> Less(files[i].Largest(), key)
      invariant forall i :: right <= i < |files| ==> !Less(files[i].Largest(), key)
    {
      var mid := (left + right) / 2;
      LargestOrder(files);
      if Less(files[mid].Largest(), key) {
        left := mid + 1;
      } else {
        right := mid;
      }
    }
    index := right;
  }

  lemma FileBounds(f: File, e: Entry)
    requires ValidFile(f) && e in f.entries
    ensures !Less(e.Ikey(), f.Smallest()) && !Less(f.Largest(), e.Ikey())
    ensures f.Smallest().user <= e.key <= f.Largest().user
  {
    var i :| 0 <= i < |f.entries| && f.entries[i] == e;
    assert i > 0 ==> Less(f.entries[0].Ikey(), f.entries[i].Ikey());
    assert i < |f.entries| - 1 ==> Less(f.entries[i].Ikey(), f.entries[|f.entries| - 1].Ikey());
  }

  lemma LargestOrder(files: seq<File>)
    requires ValidFiles(files) && Disjoint(files)
    ensures forall i, j :: 0 <= i < j < |files| ==> Less(files[i].Largest(), files[j].Largest())
  {
    forall i, j | 0 <= i < j < |files| ensures Less(files[i].Largest(), files[j].Largest()) {
      FileBounds(files[j], files[j].entries[|files[j].entries| - 1]);
    }
  }

  /** A level above 0: at most one file can hold the version to return. */
  method GetInLevel(files: seq<File>, user: UserKey, snapshot: nat) returns (r: Option<Entry>)
    requires ValidFiles(files) && Disjoint(files)
    ensures Answers(Stored(files), user, snapshot, r)
  {
    var ikey := LookupKey(user, snapshot);
    var index := FindFile(files, ikey);
    LevelSearchIsLocal(files, user, snapshot, index);
    if index >= |files| {
      return None;
    }
    if user < files[index].Smallest().user {
      return None;
    }
    r := Lookup(files[index].entries, user, snapshot);
  }

  /** A visible version cannot lie before the file found, and a later file starts after it. */
  lemma VisibleVersionPlace(files: seq<File>, ikey: InternalKey, index: nat, i: nat, e: Entry)
    requires ValidFiles(files) && Disjoint(files) && index <= |files|
    requires forall j :: 0 <= j < index ==> Less(files[j].Largest(), ikey)
    requires i < |files| && e in files[i].entries && !Less(e.Ikey(), ikey)
    ensures index <= i
    ensures i > index ==> Less(files[index].Largest(), e.Ikey())
  {
    FileBounds(files[i], e);
    if i > index {
      assert Less(files[index].Largest(), files[i].Smallest());
    }
  }

  lemma LevelSearchIsLocal(files: seq<File>, user: UserKey, snapshot: nat, index: nat)
    requires ValidFiles(files) && Disjoint(files) && index <= |files|
    requires forall i :: 0 <= i < index ==> Less(files[i].Largest(), LookupKey(user, snapshot))
    requires index < |files| ==> !Less(files[index].Largest(), LookupKey(user, snapshot))
    ensures index == |files| ==> NoneVisible(Stored(files), user, snapshot)
    ensures index < |files| && user < files[index].Smallest().user ==> NoneVisible(Stored(files), user, snapshot)
    ensures index < |files| ==>
              Answers(Stored(files), user, snapshot, Lookup(files[index].entries, user, snapshot))
  {
    hide Disjoint, ValidFile, Lookup, Sorted;
    var ikey := LookupKey(user, snapshot);
    forall e | e in Stored(files) && e.key == user && e.seqno <= snapshot
      ensures index < |files| && files[index].Smallest().user <= user
      ensures e !in files[index].entries ==> Less(files[index].Largest(), e.Ikey())
    {
      var f :| f in files && e in f.entries;
      var i :| 0 <= i < |files| && files[i] == f;
      VisibleVersionPlace(files, ikey, index, i, e);
      FileBounds(files[i], e);
      FileBounds(files[index], files[index].entries[0]);
    }
    if index < |files| {
      OneFileAnswers(files, user, snapshot, index);
    }
  }

  lemma OneFileAnswers(files: seq<File>, user: UserKey, snapshot: nat, index: nat)
    requires ValidFiles(files) && index < |files|
    requires !Less(files[index].Largest(), LookupKey(user, snapshot))
    requires forall e :: e in Stored(files) && e.key == user && e.seqno <= snapshot && e !in files[index].entries
               ==> Less(files[index].Largest(), e.Ikey())
    ensures Answers(Stored(files), user, snapshot, Lookup(files[index].entries, user, snapshot))
  {
    var es := files[index].entries;
    LookupAnswers(es, user, snapshot);
    var r := Lookup(es, user, snapshot);
    var last := es[|es| - 1];
    assert files[index] in files;
    forall e | e in Stored(files) && e.key == user && e.seqno <= snapshot
      ensures r.Some? && e.seqno <= r.value.seqno
    {
      if e in es {
        assert e in Elems(es);
      } else {
        // The last key is at or after the lookup key but before a visible version of the
        // same user key, so it is itself a visible version of that key.
        assert last in Elems(es) && last.key == user && last.seqno <= snapshot;
        assert e.seqno <= last.seqno;
      }
    }
  }

  // ---------- level 0 ----------

  predicate NewestFirst(files: seq<File>) {
    forall i, j :: 0 <= i < j < |files| ==> files[i].number > files[j].number
  }

  ghost predicate DistinctNumbers(files: seq<File>) {
    forall i, j :: 0 <= i < j < |files| ==> files[i].number != files[j].number
  }

  /** std::sort with NewestFirst, as insertions into a sorted prefix. */
  method SortNewestFirst(files: seq<File>) returns (r: seq<File>)
    requires DistinctNumbers(files)
    ensures NewestFirst(r) && |r| == |files|
    ensures forall f :: f in r <==> f in files
  {
    r := [];
    for n := 0 to |files|
      invariant NewestFirst(r) && |r| == n
      invariant forall f :: f in r <==> f in files[..n]
    {
      var i := 0;
      while i < |r| && r[i].number > files[n].number
        invariant 0 <= i <= |r| && forall j :: 0 <= j < i ==> r[j].number > files[n].number
      {
        i := i + 1;
      }
      if i < |r| {
        assert r[i] in files[..n];
        assert r[i].number < files[n].number;
      }
      InsertMembers(r, i, files[n]);
      assert files[..n + 1] == files[..n] + [files[n]];
      r := r[..i] + [files[n]] + r[i..];
    }
    assert files[..|files|] == files;
  }

  lemma InsertMembers<T>(s: seq<T>, i: nat, x: T)
    requires i <= |s|
    ensures forall y :: y in s[..i] + [x] + s[i..] <==> y == x || y in s
  {
    assert s == s[..i] + s[i..];
  }

  /** Level 0: every file whose user-key range holds the key, newest file first. */
  method GetInLevel0(files: seq<File>, user: UserKey, snapshot: nat) returns (r: Option<Entry>)
    requires ValidFiles(files)
    requires DistinctNumbers(files)
    requires forall f, g :: f in files && g in files && f.number > g.number ==> Newer(f, g)
    ensures Answers(Stored(files), user, snapshot, r)
  {
    var tmp: seq<File> := [];
    for i := 0 to |files|
      invariant forall f :: f in tmp <==> f in files[..i] && f.Smallest().user <= user <= f.Largest().user
      invariant DistinctNumbers(tmp)
    {
      var f := files[i];
      assert forall g :: g in tmp ==> g.number != f.number;
      assert files[..i + 1] == files[..i] + [f];
      if user >= f.Smallest().user && user <= f.Largest().user {
        tmp := tmp + [f];
      }
    }
    assert files[..|files|] == files;
    var sorted := SortNewestFirst(tmp);
    forall f, e | f in files && f !in sorted && e in f.entries ensures e.key != user {
      FileBounds(f, e);
    }
    for i := 0 to |sorted|
      invariant forall j :: 0 <= j < i ==> NoneVisible(Elems(sorted[j].entries), user, snapshot)
    {
      var f := sorted[i];
      assert f in files;
      LookupAnswers(f.entries, user, snapshot);
      r := Lookup(f.entries, user, snapshot);
      if r.Some? {
        Level0Stop(files, sorted, i, user, snapshot, r.value);
        return;
      }
    }
    r := None;
  }

  lemma Level0Stop(files: seq<File>, sorted: seq<File>, i: nat, user: UserKey, snapshot: nat, e: Entry)
    requires ValidFiles(files)
    requires forall f, g :: f in files && g in files && f.number > g.number ==> Newer(f, g)
    requires NewestFirst(sorted) && i < |sorted| && forall f :: f in sorted ==> f in files
    requires forall f, x :: f in files && f !in sorted && x in f.entries ==> x.key != user
    requires forall j :: 0 <= j < i ==> NoneVisible(Elems(sorted[j].entries), user, snapshot)
    requires IsNewest(Elems(sorted[i].entries), user, snapshot, e)
    ensures IsNewest(Stored(files), user, snapshot, e)
  {
    assert sorted[i] in files;
    forall x | x in Stored(files) && x.key == user && x.seqno <= snapshot
      ensures x.seqno <= e.seqno
    {
      var f :| f in files && x in f.entries;
      var j :| 0 <= j < |sorted| && sorted[j] == f;
      assert x in Elems(sorted[j].entries);
      assert j >= i;
      if j > i {
        assert Newer(sorted[i], sorted[j]);
        assert e in Elems(sorted[i].entries);
      }
    }
  }

  // ---------- the whole version ----------

  /** Version::Get: level by level, stopping at the first level that answers. */
  method Get(levels: seq<seq<File>>, user: UserKey, snapshot: nat) returns (r: Option<Entry>)
    requires ValidLevels(levels) && Recency(levels)
    requires DistinctNumbers(levels[0])
    ensures Answers(StoredFrom(levels, 0), user, snapshot, r)
  {
    for level := 0 to NUM_LEVELS
      invariant forall l :: 0 <= l < level ==> NoneVisible(Stored(levels[l]), user, snapshot)
    {
      if level == 0 {
        r := GetInLevel0(levels[0], user, snapshot);
      } else {
        r := GetInLevel(levels[level], user, snapshot);
      }
      if r.Some? {
        LevelStop(levels, level, user, snapshot, r.value);
        return;
      }
    }
    r := None;
  }

  lemma LevelStop(levels: seq<seq<File>>, level: nat, user: UserKey, snapshot: nat, e: Entry)
    requires |levels| == NUM_LEVELS && Recency(levels) && level < NUM_LEVELS
    requires forall l :: 0 <= l < level ==> NoneVisible(Stored(levels[l]), user, snapshot)
    requires IsNewest(Stored(levels[level]), user, snapshot, e)
    ensures IsNewest(StoredFrom(levels, 0), user, snapshot, e)
  {
    forall x | x in StoredFrom(levels, 0) && x.key == user && x.seqno <= snapshot
      ensures x.seqno <= e.seqno
    {
      var l :| 0 <= l < |levels| && InFiles(levels[l], x);
      assert x in Stored(levels[l]);
      if l > level {
        var f :| f in levels[level] && e in f.entries;
        var g :| g in levels[l] && x in g.entries;
        assert Newer(f, g);
        assert e in Elems(f.entries) && x in Elems(g.entries);
      }
    }
  }
}
