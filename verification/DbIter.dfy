/**
 DBIter (db/db_iter.cc): turns an iterator over all stored versions into one over
 the keys that are live at a snapshot, in both directions.
 */
module DbIter {
  import opened Wrappers
  import opened Keys
  import opened Mvcc
  import opened Cursors
  import opened Versions

  // ---------- the live keys of a snapshot ----------

  predicate Visible(es: seq<Entry>, snapshot: nat, i: nat) {
    i < |es| && es[i].seqno <= snapshot
  }

  /** Position `i` holds the newest visible version of its user key, and it is a value. */
  predicate Yields(es: seq<Entry>, snapshot: nat, i: nat) {
    && Visible(es, snapshot, i) && es[i].op.Put?
    && forall j :: 0 <= j < i && es[j].key == es[i].key ==> !Visible(es, snapshot, j)
  }

  datatype Pair = Pair(key: UserKey, value: Bytes)

  /** The live pairs found at positions below `n`. */
  function LiveBelow(es: seq<Entry>, snapshot: nat, n: nat): seq<Pair>
    requires n <= |es|
  {
    if n == 0 then []
    else if Yields(es, snapshot, n - 1) then LiveBelow(es, snapshot, n - 1) + [Pair(es[n - 1].key, es[n - 1].op.value)]
    else LiveBelow(es, snapshot, n - 1)
  }

  /** What the iterator lists. */
  function Live(es: seq<Entry>, snapshot: nat): seq<Pair> { LiveBelow(es, snapshot, |es|) }

  lemma {:induction false} LivePrefix(es: seq<Entry>, snapshot: nat, n: nat, m: nat)
    requires n <= m <= |es|
    ensures LiveBelow(es, snapshot, n) <= LiveBelow(es, snapshot, m)
    decreases m - n
  {
    if n < m {
      LivePrefix(es, snapshot, n, m - 1);
    }
  }

  /** Between two positions without live keys the live list does not grow. */
  lemma {:induction false} NoneBetween(es: seq<Entry>, snapshot: nat, n: nat, m: nat)
    requires n <= m <= |es| && forall j :: n <= j < m ==> !Yields(es, snapshot, j)
    ensures LiveBelow(es, snapshot, n) == LiveBelow(es, snapshot, m)
    decreases m - n
  {
    if n < m {
      NoneBetween(es, snapshot, n, m - 1);
    }
  }

  /** The place in the live list of the live key at position `p`. */
  lemma LiveAt(es: seq<Entry>, snapshot: nat, p: nat)
    requires Yields(es, snapshot, p)
    ensures var i := |LiveBelow(es, snapshot, p)|;
            i < |Live(es, snapshot)| && Live(es, snapshot)[i] == Pair(es[p].key, es[p].op.value)
    ensures LiveBelow(es, snapshot, p + 1) == LiveBelow(es, snapshot, p) + [Pair(es[p].key, es[p].op.value)]
  {
    LivePrefix(es, snapshot, p + 1, |es|);
  }

  lemma {:induction false} LiveOrigin(es: seq<Entry>, snapshot: nat, n: nat, i: nat) returns (p: nat)
    requires n <= |es| && i < |LiveBelow(es, snapshot, n)|
    ensures p < n && Yields(es, snapshot, p) && |LiveBelow(es, snapshot, p)| == i
    ensures LiveBelow(es, snapshot, n)[i] == Pair(es[p].key, es[p].op.value)
  {
    if i < |LiveBelow(es, snapshot, n - 1)| {
      p := LiveOrigin(es, snapshot, n - 1, i);
    } else {
      p := n - 1;
    }
  }

  /** The live list is the snapshot's map: every key whose newest visible version is a value, once, in order. */
  lemma LiveIsTheSnapshot(es: seq<Entry>, snapshot: nat)
    requires Sorted(es)
    ensures forall i, j :: 0 <= i < j < |Live(es, snapshot)| ==> Live(es, snapshot)[i].key < Live(es, snapshot)[j].key
    ensures forall key, value :: Pair(key, value) in Live(es, snapshot) <==>
              exists e: Entry :: IsNewest(Elems(es), key, snapshot, e) && e.op == Put(value)
  {
    var live, s := Live(es, snapshot), Elems(es);
    forall i, j | 0 <= i < j < |live| ensures live[i].key < live[j].key {
      var p := LiveOrigin(es, snapshot, |es|, i);
      var q := LiveOrigin(es, snapshot, |es|, j);
      if q <= p { LivePrefix(es, snapshot, q, p); }
      assert Less(es[p].Ikey(), es[q].Ikey());
    }
    forall key, value | Pair(key, value) in live
      ensures exists e: Entry :: IsNewest(s, key, snapshot, e) && e.op == Put(value)
    {
      var i :| 0 <= i < |live| && live[i] == Pair(key, value);
      var p := LiveOrigin(es, snapshot, |es|, i);
      YieldIsNewest(es, snapshot, p);
    }
    forall key, value, e: Entry | IsNewest(s, key, snapshot, e) && e.op == Put(value) ensures Pair(key, value) in live {
      var p :| 0 <= p < |es| && es[p] == e;
      NewestYields(es, snapshot, p);
      LiveAt(es, snapshot, p);
    }
  }

  lemma YieldIsNewest(es: seq<Entry>, snapshot: nat, p: nat)
    requires Sorted(es) && Yields(es, snapshot, p)
    ensures IsNewest(Elems(es), es[p].key, snapshot, es[p])
  {
    forall f | f in es && f.key == es[p].key && f.seqno <= snapshot ensures f.seqno <= es[p].seqno {
      var j :| 0 <= j < |es| && es[j] == f;
      assert j >= p;
      if j > p { assert Less(es[p].Ikey(), es[j].Ikey()); }
    }
  }

  lemma NewestYields(es: seq<Entry>, snapshot: nat, p: nat)
    requires Sorted(es) && p < |es| && es[p].op.Put? && IsNewest(Elems(es), es[p].key, snapshot, es[p])
    ensures Yields(es, snapshot, p)
  {
    forall j | 0 <= j < p && es[j].key == es[p].key ensures !Visible(es, snapshot, j) {
      assert Less(es[j].Ikey(), es[p].Ikey()) && es[j] in es;
    }
  }

  /** Over a faithful store, iterating at a snapshot lists exactly the map after the first `snapshot` writes. */
  lemma LiveIsHistory(es: seq<Entry>, h: History, low: nat, snapshot: nat, key: UserKey)
    requires Sorted(es) && ReadsRightFrom(Elems(es), h, low) && low <= snapshot <= |h|
    ensures ValueAfter(h[..snapshot], key) == None <==> forall v :: Pair(key, v) !in Live(es, snapshot)
    ensures forall v :: ValueAfter(h[..snapshot], key) == Some(v) <==> Pair(key, v) in Live(es, snapshot)
  {
    var s := Elems(es);
    assert ReadsRight(s, h, key, snapshot);
    LiveIsTheSnapshot(es, snapshot);
    var r := AnswerIn(es, key, snapshot);
    assert Outcome(OpOf(r)) == ValueAfter(h[..snapshot], key);
    forall v | Pair(key, v) in Live(es, snapshot) ensures ValueAfter(h[..snapshot], key) == Some(v) {
      var e: Entry :| IsNewest(s, key, snapshot, e) && e.op == Put(v);
      assert Answers(s, key, snapshot, Some(e));
    }
    if r.Some? && r.value.op.Put? {
      assert Pair(key, r.value.op.value) in Live(es, snapshot);
    }
  }

  lemma {:induction false} AnswerIn(es: seq<Entry>, key: UserKey, snapshot: nat) returns (r: Option<Entry>)
    ensures Answers(Elems(es), key, snapshot, r)
  {
    r := None;
    var i := 0;
    while i < |es|
      invariant 0 <= i <= |es| && Answers(Elems(es[..i]), key, snapshot, r)
    {
      assert es[..i + 1] == es[..i] + [es[i]];
      if es[i].key == key && es[i].seqno <= snapshot && (r.None? || r.value.seqno < es[i].seqno) {
        r := Some(es[i]);
      }
      i := i + 1;
    }
    assert es[..i] == es;
  }

  // ---------- the iterator ----------

  datatype Direction = Forward | Reverse

  /** Visible versions from `p` on have keys at or after `skip`. */
  ghost predicate VisibleFrom(es: seq<Entry>, snapshot: nat, p: nat, skip: UserKey) {
    forall j :: p <= j < |es| && Visible(es, snapshot, j) ==> skip <= es[j].key
  }

  /** A visible version at `j` or later is hidden exactly if its key is being skipped. */
  ghost predicate SkipsHidden(es: seq<Entry>, snapshot: nat, p: nat, j: nat, skipping: bool, skip: UserKey,
                              skipping0: bool, skip0: UserKey)
  {
    forall k :: j <= k < |es| && Visible(es, snapshot, k) ==>
      ((skipping && es[k].key <= skip) <==>
       ((skipping0 && es[k].key <= skip0) || exists i :: p <= i < j && Visible(es, snapshot, i)
                                                         && es[i].key == es[k].key))
  }

  /** Keys with visible versions before `p` are either done with or to be skipped. */
  ghost predicate EarlierSkipped(es: seq<Entry>, snapshot: nat, p: nat, skipping: bool, skip: UserKey) {
    forall i, k :: 0 <= i < p <= k < |es| && Visible(es, snapshot, i) && Visible(es, snapshot, k)
                   && es[i].key == es[k].key ==>
      skipping && es[k].key <= skip
  }

  /** The first live position from `p` on whose key is not skipped, |es| if there is none. */
  ghost predicate IsNextLive(es: seq<Entry>, snapshot: nat, p: nat, skipping: bool, skip: UserKey, q: nat) {
    && p <= q <= |es|
    && (q < |es| ==> Yields(es, snapshot, q) && !(skipping && es[q].key <= skip))
    && (forall j :: p <= j < q && Yields(es, snapshot, j) ==> skipping && es[j].key <= skip)
  }

  /** The last live position before `n`, |es| if there is none. */
  ghost predicate IsPrevLive(es: seq<Entry>, snapshot: nat, n: nat, q: nat) {
    && n <= |es|
    && (q < |es| ==> q < n && Yields(es, snapshot, q) && forall j :: q < j < n ==> !Yields(es, snapshot, j))
    && (q >= |es| ==> q == |es| && forall j :: 0 <= j < n ==> !Yields(es, snapshot, j))
  }

  /**
   Moving backwards, the inner iterator stands before every version of the current key:
   at the closest visible one, or nowhere.
   */
  ghost predicate StandsBefore(es: seq<Entry>, snapshot: nat, pos: nat, cur: nat) {
    && cur < |es|
    && (pos < |es| ==> pos < cur && Visible(es, snapshot, pos) && es[pos].key < es[cur].key
                       && forall j :: pos < j < cur ==> !Visible(es, snapshot, j))
    && (pos >= |es| ==> forall j :: 0 <= j < cur ==> !Visible(es, snapshot, j))
  }

  lemma SkipsStart(es: seq<Entry>, snapshot: nat, p: nat, skipping: bool, skip: UserKey, skip0: UserKey)
    requires skipping ==> skip == skip0
    ensures SkipsHidden(es, snapshot, p, p, skipping, skip, skipping, skip0)
  {
  }

  /** One iteration that does not stop: a visible deletion starts skipping its own key. */
  lemma SkipsOn(es: seq<Entry>, snapshot: nat, p: nat, pos: nat, skipping: bool, skip: UserKey, skipping': bool,
                skip': UserKey, skipping0: bool, skip0: UserKey)
    requires Sorted(es) && p <= pos < |es|
    requires SkipsHidden(es, snapshot, p, pos, skipping, skip, skipping0, skip0)
    requires skipping ==> VisibleFrom(es, snapshot, pos, skip)
    requires if !Visible(es, snapshot, pos) then skipping' == skipping && skip' == skip
             else if es[pos].op.Delete? then skipping' && skip' == es[pos].key
             else skipping && es[pos].key <= skip && skipping' && skip' == skip
    ensures skipping' ==> VisibleFrom(es, snapshot, pos + 1, skip')
    ensures SkipsHidden(es, snapshot, p, pos + 1, skipping', skip', skipping0, skip0)
  {
    forall k | pos + 1 <= k < |es| && Visible(es, snapshot, k)
      ensures es[pos].key <= es[k].key
      ensures (skipping' && es[k].key <= skip') <==>
              ((skipping0 && es[k].key <= skip0) || exists i :: p <= i < pos + 1 && Visible(es, snapshot, i)
                                                                && es[i].key == es[k].key)
    {
      assert Less(es[pos].Ikey(), es[k].Ikey());
      SkipsOnAt(es, snapshot, p, pos, skipping, skip, skipping', skip', skipping0, skip0, k);
    }
  }

  lemma SkipsOnAt(es: seq<Entry>, snapshot: nat, p: nat, pos: nat, skipping: bool, skip: UserKey, skipping': bool,
                  skip': UserKey, skipping0: bool, skip0: UserKey, k: nat)
    requires p <= pos < k < |es| && Visible(es, snapshot, k) && es[pos].key <= es[k].key
    requires SkipsHidden(es, snapshot, p, pos, skipping, skip, skipping0, skip0)
    requires skipping ==> VisibleFrom(es, snapshot, pos, skip)
    requires if !Visible(es, snapshot, pos) then skipping' == skipping && skip' == skip
             else if es[pos].op.Delete? then skipping' && skip' == es[pos].key
             else skipping && es[pos].key <= skip && skipping' && skip' == skip
    ensures (skipping' && es[k].key <= skip') <==>
            ((skipping0 && es[k].key <= skip0) || exists i :: p <= i < pos + 1 && Visible(es, snapshot, i)
                                                              && es[i].key == es[k].key)
  {
    if !Visible(es, snapshot, pos) {
      assert forall i :: p <= i < pos + 1 && Visible(es, snapshot, i) ==> i < pos;
    } else if es[k].key == es[pos].key {
      assert skipping' && es[k].key <= skip';
    } else {
      assert forall i :: p <= i < pos + 1 && Visible(es, snapshot, i) && es[i].key == es[k].key ==> i < pos;
      assert !(skipping && es[k].key <= skip);
    }
  }

  /** A visible value that is not being skipped is the next pair, and one that is hidden is no pair at all. */
  lemma SkipDecides(es: seq<Entry>, snapshot: nat, p: nat, pos: nat, skipping: bool, skip: UserKey, skipping0: bool,
                    skip0: UserKey)
    requires p <= pos < |es| && Visible(es, snapshot, pos) && es[pos].op.Put?
    requires SkipsHidden(es, snapshot, p, pos, skipping, skip, skipping0, skip0)
    requires EarlierSkipped(es, snapshot, p, skipping0, skip0)
    ensures !(skipping && es[pos].key <= skip) <==> Yields(es, snapshot, pos) && !(skipping0 && es[pos].key <= skip0)
  {
    if !(skipping && es[pos].key <= skip) {
      forall j | 0 <= j < pos && es[j].key == es[pos].key ensures !Visible(es, snapshot, j) {
      }
    }
  }

  /**
   With nothing visible closer before it and the next visible one of another key, a
   value is the newest of its key.
   */
  lemma OldestVisibleYields(es: seq<Entry>, snapshot: nat, pos: nat, m: nat)
    requires Sorted(es) && m < |es| && Visible(es, snapshot, m) && es[m].op.Put? && StandsBefore(es, snapshot, pos, m)
    ensures Yields(es, snapshot, m)
  {
    if pos < |es| {
      forall j | 0 <= j < pos ensures es[j].key <= es[pos].key { assert Less(es[j].Ikey(), es[pos].Ikey()); }
    }
  }

  /** Scanning back from `p` to `low`: `m` is the last visible version seen, and everything after it is settled. */
  ghost predicate ScannedBack(es: seq<Entry>, snapshot: nat, low: nat, p: nat, m: nat) {
    && low < m <= p + 1 <= |es|
    && (forall j :: low < j < m ==> !Visible(es, snapshot, j))
    && (forall j :: m < j <= p ==> !Yields(es, snapshot, j))
    && (m <= p ==> Visible(es, snapshot, m))
  }

  lemma ScansVisible(es: seq<Entry>, snapshot: nat, pos: nat, p: nat, m: nat)
    requires Sorted(es) && ScannedBack(es, snapshot, pos, p, m) && Visible(es, snapshot, pos)
    requires m <= p ==> !(es[m].op.Put? && es[pos].key < es[m].key)
    ensures forall j :: pos < j <= p ==> !Yields(es, snapshot, j)
  {
    if m <= p && es[m].op.Put? {
      assert Less(es[pos].Ikey(), es[m].Ikey());
      assert es[pos].key == es[m].key;
    }
  }

  lemma ScansOn(es: seq<Entry>, snapshot: nat, pos: nat, p: nat, m: nat)
    requires pos > 0 && pos <= p < |es|
    requires if Visible(es, snapshot, pos) then m == pos && forall j :: pos < j <= p ==> !Yields(es, snapshot, j)
             else ScannedBack(es, snapshot, pos, p, m)
    ensures ScannedBack(es, snapshot, pos - 1, p, m)
  {
  }

  lemma StopsScan(es: seq<Entry>, snapshot: nat, pos: nat, p: nat, m: nat)
    requires Sorted(es) && ScannedBack(es, snapshot, pos, p, m) && Visible(es, snapshot, pos)
    requires m <= p && es[m].op.Put? && es[pos].key < es[m].key
    ensures StandsBefore(es, snapshot, pos, m) && Yields(es, snapshot, m) && IsPrevLive(es, snapshot, p + 1, m)
  {
    OldestVisibleYields(es, snapshot, pos, m);
  }

  lemma EndsScan(es: seq<Entry>, snapshot: nat, p: nat, m: nat)
    requires Sorted(es) && p < |es| && m <= p + 1
    requires forall j :: 0 <= j < m ==> !Visible(es, snapshot, j)
    requires forall j :: m < j <= p ==> !Yields(es, snapshot, j)
    requires m <= p ==> Visible(es, snapshot, m)
    ensures m <= p && es[m].op.Put? ==> StandsBefore(es, snapshot, |es|, m) && Yields(es, snapshot, m)
                                        && IsPrevLive(es, snapshot, p + 1, m)
    ensures m == p + 1 || es[m].op.Delete? ==> IsPrevLive(es, snapshot, p + 1, |es|)
  {
    if m <= p && es[m].op.Put? {
      OldestVisibleYields(es, snapshot, |es|, m);
    }
  }

  // ---------- direction switches ----------

  lemma CurrentIsVisible(es: seq<Entry>, snapshot: nat, cur: nat)
    requires Yields(es, snapshot, cur)
    ensures cur < |es| && Visible(es, snapshot, cur) && es[cur].op.Put?
  {
  }

  /** Going forward from the current pair, its own key is the one to skip. */
  lemma LeavesForward(es: seq<Entry>, snapshot: nat, cur: nat)
    requires Sorted(es) && Yields(es, snapshot, cur)
    ensures VisibleFrom(es, snapshot, cur, es[cur].key) && EarlierSkipped(es, snapshot, cur, true, es[cur].key)
  {
    forall j | cur < j < |es| ensures es[cur].key <= es[j].key { assert Less(es[cur].Ikey(), es[j].Ikey()); }
    forall i, k | 0 <= i < cur <= k < |es| && Visible(es, snapshot, i) && Visible(es, snapshot, k)
    && es[i].key == es[k].key
      ensures es[k].key <= es[cur].key
    {
      assert Less(es[i].Ikey(), es[cur].Ikey());
    }
  }

  /** From reverse to forward: from before the current key's versions, skipping that key. */
  lemma LeavesReverse(es: seq<Entry>, snapshot: nat, pos: nat, cur: nat)
    requires Sorted(es) && Yields(es, snapshot, cur) && StandsBefore(es, snapshot, pos, cur)
    ensures var p := if pos < |es| then pos + 1 else 0;
            p <= cur && VisibleFrom(es, snapshot, p, es[cur].key) && EarlierSkipped(es, snapshot, p, true, es[cur].key)
  {
    forall j | cur < j < |es| ensures es[cur].key <= es[j].key { assert Less(es[cur].Ikey(), es[j].Ikey()); }
    if pos < |es| {
      forall j | 0 <= j < pos ensures es[j].key <= es[pos].key { assert Less(es[j].Ikey(), es[pos].Ikey()); }
    }
  }

  /** The next live key after skipping the current one is the next in the live list. */
  lemma AfterCurrent(es: seq<Entry>, snapshot: nat, p: nat, cur: nat, q: nat)
    requires Sorted(es) && Yields(es, snapshot, cur) && p <= cur
    requires IsNextLive(es, snapshot, p, true, es[cur].key, q)
    ensures |LiveBelow(es, snapshot, q)| == |LiveBelow(es, snapshot, cur)| + 1
  {
    assert cur < q by {
      assert forall i :: 0 <= i < cur ==> Less(es[i].Ikey(), es[cur].Ikey());
    }
    forall j | cur < j < q ensures !Yields(es, snapshot, j) {
      assert Less(es[cur].Ikey(), es[j].Ikey());
    }
    LiveAt(es, snapshot, cur);
    NoneBetween(es, snapshot, cur + 1, q);
  }

  /** The entries from `pos` to `cur` all have the same user key. */
  ghost predicate SameKeyBack(es: seq<Entry>, pos: nat, cur: nat) {
    pos <= cur < |es| && forall j :: pos <= j <= cur ==> es[j].key == es[cur].key
  }

  lemma SameKeyOn(es: seq<Entry>, pos: nat, cur: nat)
    requires Sorted(es) && pos + 1 <= cur < |es| && SameKeyBack(es, pos + 1, cur) && es[pos].key >= es[cur].key
    ensures SameKeyBack(es, pos, cur)
  {
    assert Less(es[pos].Ikey(), es[cur].Ikey());
  }

  /** The versions of the current key before it are too new to be seen. */
  lemma LeavesGroup(es: seq<Entry>, snapshot: nat, n: nat, cur: nat)
    requires Yields(es, snapshot, cur) && SameKeyBack(es, n, cur)
    ensures forall j :: n <= j < cur ==> !Visible(es, snapshot, j)
  {
  }

  lemma GroupBefore(es: seq<Entry>, snapshot: nat, pos: nat, cur: nat)
    requires Sorted(es) && cur < |es|
    requires pos < |es| ==> pos < cur && es[pos].key < es[cur].key && forall j :: pos < j < cur ==>
               !Visible(es, snapshot, j)
    ensures pos < |es| ==> forall j :: pos < j < |es| && Visible(es, snapshot, j) ==> es[pos].key < es[j].key
  {
    forall j | cur < j < |es| ensures es[cur].key <= es[j].key { assert Less(es[cur].Ikey(), es[j].Ikey()); }
  }

  /** The last live key before the current one is the previous in the live list. */
  lemma BeforeCurrent(es: seq<Entry>, snapshot: nat, n: nat, cur: nat, q: nat)
    requires Yields(es, snapshot, cur) && n <= cur
    requires IsPrevLive(es, snapshot, n, q) && forall j :: n <= j < cur ==> !Visible(es, snapshot, j)
    ensures q < |es| ==> |LiveBelow(es, snapshot, q)| == |LiveBelow(es, snapshot, cur)| - 1
    ensures q >= |es| ==> |LiveBelow(es, snapshot, cur)| == 0
  {
    if q < |es| {
      LiveAt(es, snapshot, q);
      NoneBetween(es, snapshot, q + 1, cur);
    } else {
      NoneBetween(es, snapshot, 0, cur);
    }
  }

  // ---------- seeks ----------

  lemma SeekSkipsNothing(es: seq<Entry>, snapshot: nat, target: UserKey, p: nat)
    requires Sorted(es) && p <= |es| && forall i :: 0 <= i < |es| ==>
               (Less(es[i].Ikey(), LookupKey(target, snapshot)) <==> i < p)
    ensures EarlierSkipped(es, snapshot, p, false, 0.0)
    ensures forall i :: 0 <= i < p && Visible(es, snapshot, i) ==> es[i].key < target
    ensures forall i :: p <= i < |es| ==> target <= es[i].key
  {
    forall i | 0 <= i < |es| ensures i < p <==> es[i].key < target || (es[i].key == target && es[i].seqno > snapshot) {
      LookupKeyBound(es[i], target, snapshot);
    }
  }

  lemma SeekLands(es: seq<Entry>, snapshot: nat, target: UserKey, p: nat, q: nat)
    requires Sorted(es) && IsNextLive(es, snapshot, p, false, 0.0, q)
    requires forall i :: 0 <= i < p && Visible(es, snapshot, i) ==> es[i].key < target
    requires forall i :: p <= i < |es| ==> target <= es[i].key
    ensures forall i :: 0 <= i < |Live(es, snapshot)| ==>
              (Live(es, snapshot)[i].key < target <==> i < |LiveBelow(es, snapshot, q)|)
  {
    hide Sorted, LiveBelow;
    NoneBetween(es, snapshot, p, q);
    forall i | 0 <= i < |Live(es, snapshot)|
      ensures Live(es, snapshot)[i].key < target <==> i < |LiveBelow(es, snapshot, p)|
    {
      var o := LiveOrigin(es, snapshot, |es|, i);
      LiveAt(es, snapshot, o);
      if o < p {
        LivePrefix(es, snapshot, o + 1, p);
      } else {
        LivePrefix(es, snapshot, p, o);
      }
    }
  }

  class DBIter {
    const iter: Cursor
    const snapshot: nat
    var savedKey: UserKey
    var savedValue: Bytes
    var direction: Direction
    var valid: bool
    /** Position of the entry that yields the current pair, |es| if there is none. */
    ghost var cur: nat

    ghost predicate Ok()
      reads this, iter
    {
      && Sorted(iter.es) && iter.pos <= |iter.es|
      && (valid <==> cur < |iter.es|) && cur <= |iter.es|
      && (valid ==> Yields(iter.es, snapshot, cur))
      && (valid && direction == Forward ==> iter.pos == cur)
      && (valid && direction == Reverse ==>
            && savedKey == iter.es[cur].key && savedValue == iter.es[cur].op.value
            && StandsBefore(iter.es, snapshot, iter.pos, cur))
    }

    /** Where the iterator is in the live list; its length if nowhere. */
    ghost function At(): nat
      reads this, iter
    {
      if cur < |iter.es| then |LiveBelow(iter.es, snapshot, cur)| else |Live(iter.es, snapshot)|
    }

    constructor (iter: Cursor, snapshot: nat)
      requires Sorted(iter.es) && iter.pos <= |iter.es|
      ensures Ok() && this.iter == iter && this.snapshot == snapshot && !valid
    {
      this.iter := iter;
      this.snapshot := snapshot;
      savedKey, savedValue, direction, valid := 0.0, [], Forward, false;
      cur := |iter.es|;
    }

    function Key(): UserKey
      requires valid && (direction == Forward ==> iter.Valid())
      reads this, iter
    {
      if direction == Forward then iter.Current().key else savedKey
    }

    function Value(): Bytes
      requires valid && (direction == Forward ==> iter.Valid() && iter.Current().op.Put?)
      reads this, iter
    {
      if direction == Forward then iter.Current().op.value else savedValue
    }

    method FindNextUserEntry(skip0: bool)
      requires iter.Valid() && Sorted(iter.es) && direction == Forward
      requires skip0 ==> VisibleFrom(iter.es, snapshot, iter.pos, savedKey)
      requires EarlierSkipped(iter.es, snapshot, iter.pos, skip0, if skip0 then savedKey else 0.0)
      modifies this, iter
      ensures Ok() && direction == Forward
      ensures IsNextLive(iter.es, snapshot, old(iter.pos), skip0, if skip0 then old(savedKey) else 0.0, cur)
    {
      hide SkipsHidden, VisibleFrom, EarlierSkipped, Sorted;
      var skipping := skip0;
      ghost var es, p, key0 := iter.es, iter.pos, if skip0 then savedKey else 0.0;
      SkipsStart(es, snapshot, p, skip0, savedKey, key0);
      while true
        invariant p <= iter.pos < |es| && direction == Forward
        invariant skipping ==> VisibleFrom(es, snapshot, iter.pos, savedKey)
        invariant SkipsHidden(es, snapshot, p, iter.pos, skipping, savedKey, skip0, key0)
        invariant forall j :: p <= j < iter.pos && Yields(es, snapshot, j) ==> skip0 && es[j].key <= key0
        decreases |es| - iter.pos
      {
        ghost var pos, was := iter.pos, (skipping, savedKey);
        var ikey := iter.Current();
        if ikey.seqno <= snapshot {
          if ikey.op.Put? { SkipDecides(es, snapshot, p, pos, skipping, savedKey, skip0, key0); }
          if ikey.op.Delete? {
            savedKey := ikey.key;
            skipping := true;
          } else if skipping && ikey.key <= savedKey {
            // hidden
          } else {
            valid := true;
            savedKey := 0.0;
            cur := pos;
            return;
          }
        }
        iter.Next();
        SkipsOn(es, snapshot, p, pos, was.0, was.1, skipping, savedKey, skip0, key0);
        if !iter.Valid() { break; }
      }
      savedKey := 0.0;
      valid := false;
      cur := |es|;
    }

    method FindPrevUserEntry()
      requires direction == Reverse && Sorted(iter.es) && iter.pos <= |iter.es|
      requires iter.Valid() ==> forall j :: iter.pos < j < |iter.es| && Visible(iter.es, snapshot, j) ==>
                 iter.es[iter.pos].key < iter.es[j].key
      modifies this, iter
      ensures Ok() && (direction == Reverse <==> valid)
      ensures IsPrevLive(iter.es, snapshot, if old(iter.pos) < |iter.es| then old(iter.pos) + 1 else 0, cur)
    {
      hide StandsBefore, Sorted;
      ghost var es, p := iter.es, iter.pos;
      // the closest visible version to the front seen so far, p + 1 if none
      ghost var m: nat := p + 1;
      var lastType := Delete;
      if iter.Valid() {
        while true
          invariant iter.pos <= p < |es| && direction == Reverse && ScannedBack(es, snapshot, iter.pos, p, m)
          invariant m == p + 1 ==> lastType == Delete
          invariant m <= p ==> lastType == es[m].op
          invariant lastType.Put? ==> savedKey == es[m].key && savedValue == es[m].op.value
          decreases iter.pos
        {
          var ikey := iter.Current();
          ghost var pos := iter.pos;
          if ikey.seqno <= snapshot {
            if lastType.Put? && ikey.key < savedKey {
              StopsScan(es, snapshot, pos, p, m);
              valid := true;
              cur := m;
              return;
            }
            lastType := ikey.op;
            if lastType.Delete? {
              savedKey, savedValue := 0.0, [];
            } else {
              savedKey, savedValue := ikey.key, ikey.op.value;
            }
            ScansVisible(es, snapshot, pos, p, m);
            m := pos;
          }
          iter.Prev();
          if !iter.Valid() { break; }
          ScansOn(es, snapshot, pos, p, m);
        }
        EndsScan(es, snapshot, p, m);
      }
      if lastType.Delete? {
        valid := false;
        savedKey, savedValue := 0.0, [];
        direction := Forward;
        cur := |es|;
      } else {
        valid := true;
        cur := m;
      }
    }

    /** What the caller sees is the pair at the iterator's place in the live list. */
    lemma Shows()
      requires Ok()
      ensures valid <==> At() < |Live(iter.es, snapshot)|
      ensures valid ==> (direction == Forward ==> iter.Valid() && iter.Current().op.Put?)
      ensures valid ==> Live(iter.es, snapshot)[At()] == Pair(Key(), Value())
    {
      if valid { LiveAt(iter.es, snapshot, cur); }
    }

    method Next()
      requires Ok() && valid
      modifies this, iter
      ensures Ok() && At() == old(At()) + 1
    {
      hide Yields, Sorted;
      ghost var es, cur0 := iter.es, cur;
      CurrentIsVisible(es, snapshot, cur0);
      if direction == Reverse {
        direction := Forward;
        LeavesReverse(es, snapshot, iter.pos, cur0);
        if !iter.Valid() {
          iter.SeekToFirst();
        } else {
          iter.Next();
        }
        // the inner iterator is valid here: it stands at or before the current pair's versions
      } else {
        savedKey := iter.Current().key;
        LeavesForward(es, snapshot, cur0);
      }
      ghost var p := iter.pos;
      FindNextUserEntry(true);
      AfterCurrent(es, snapshot, p, cur0, cur);
    }

    method Prev()
      requires Ok() && valid
      modifies this, iter
      ensures Ok() && At() == if old(At()) == 0 then |Live(iter.es, snapshot)| else old(At()) - 1
    {
      hide Yields, Sorted;
      ghost var es, cur0 := iter.es, cur;
      CurrentIsVisible(es, snapshot, cur0);
      if direction == Forward {
        savedKey := iter.Current().key;
        while true
          invariant iter.pos <= cur0 && SameKeyBack(es, iter.pos, cur0)
          invariant savedKey == es[cur0].key && direction == Forward && cur == cur0
          decreases iter.pos
        {
          ghost var pos := iter.pos;
          iter.Prev();
          if !iter.Valid() {
            valid := false;
            savedKey, savedValue := 0.0, [];
            cur := |es|;
            LeavesGroup(es, snapshot, 0, cur0);
            BeforeCurrent(es, snapshot, 0, cur0, cur);
            return;
          }
          if iter.Current().key < savedKey { break; }
          SameKeyOn(es, pos - 1, cur0);
        }
        direction := Reverse;
        LeavesGroup(es, snapshot, iter.pos + 1, cur0);
      }
      ghost var n := if iter.pos < |es| then iter.pos + 1 else 0;
      GroupBefore(es, snapshot, iter.pos, cur0);
      FindPrevUserEntry();
      BeforeCurrent(es, snapshot, n, cur0, cur);
    }

    method Seek(target: UserKey)
      requires Sorted(iter.es)
      modifies this, iter
      ensures Ok() && forall i :: 0 <= i < |Live(iter.es, snapshot)| ==>
                (Live(iter.es, snapshot)[i].key < target <==> i < At())
    {
      direction := Forward;
      savedValue := [];
      ghost var es := iter.es;
      SeekPosSplits(es, LookupKey(target, snapshot));
      iter.Seek(LookupKey(target, snapshot));
      ghost var p := iter.pos;
      SeekSkipsNothing(es, snapshot, target, p);
      if iter.Valid() {
        FindNextUserEntry(false);
      } else {
        valid := false;
        cur := |es|;
      }
      SeekLands(es, snapshot, target, p, cur);
    }

    method SeekToFirst()
      requires Sorted(iter.es)
      modifies this, iter
      ensures Ok() && At() == 0
    {
      direction := Forward;
      savedValue := [];
      iter.SeekToFirst();
      if iter.Valid() {
        FindNextUserEntry(false);
      } else {
        valid := false;
        cur := |iter.es|;
      }
      NoneBetween(iter.es, snapshot, 0, cur);
    }

    method SeekToLast()
      requires Sorted(iter.es)
      modifies this, iter
      ensures Ok() && At() == if Live(iter.es, snapshot) == [] then 0 else |Live(iter.es, snapshot)| - 1
    {
      direction := Reverse;
      savedValue := [];
      iter.SeekToLast();
      FindPrevUserEntry();
      ghost var es := iter.es;
      if cur < |es| {
        LiveAt(es, snapshot, cur);
        NoneBetween(es, snapshot, cur + 1, |es|);
      } else {
        NoneBetween(es, snapshot, 0, |es|);
      }
    }
  }
}
