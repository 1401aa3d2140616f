/**
 MergingIterator (table/merger.cc): many sorted children shown as one sorted list,
 in both directions.
 */
module Merger {
  import opened Keys
  import opened Cursors

  /** `all` is the sorted union of lists no two of which share an internal key. */
  ghost predicate IsUnion(all: seq<Entry>, lists: seq<seq<Entry>>) {
    && Sorted(all)
    && (forall i :: 0 <= i < |lists| ==> Sorted(lists[i]))
    && (forall e :: e in all <==> exists i :: 0 <= i < |lists| && e in lists[i])
    && Disjoint(lists)
  }

  ghost predicate Disjoint(lists: seq<seq<Entry>>) {
    forall i, j, a, b :: 0 <= i < j < |lists| && a in lists[i] && b in lists[j] ==> a.Ikey() != b.Ikey()
  }

  /** How many entries of `es` come before place `p` of the union. */
  function Split(es: seq<Entry>, all: seq<Entry>, p: nat): nat {
    if p < |all| then SeekPos(es, all[p].Ikey()) else |es|
  }

  lemma SplitAt(all: seq<Entry>, lists: seq<seq<Entry>>, p: nat, i: nat, j: nat)
    requires IsUnion(all, lists) && p <= |all| && i < |lists| && j < |lists[i]|
    ensures Split(lists[i], all, p) <= |lists[i]|
    ensures j < Split(lists[i], all, p) <==> p == |all| || Less(lists[i][j].Ikey(), all[p].Ikey())
  {
    if p < |all| {
      SeekPosSplits(lists[i], all[p].Ikey());
    }
  }

  lemma SplitBounded(all: seq<Entry>, lists: seq<seq<Entry>>, p: nat, i: nat)
    requires IsUnion(all, lists) && i < |lists|
    ensures Split(lists[i], all, p) <= |lists[i]|
  {
    if p < |all| {
      SeekPosSplits(lists[i], all[p].Ikey());
    }
  }

  /** The child that holds place `p` of the union, and where. */
  lemma Owner(all: seq<Entry>, lists: seq<seq<Entry>>, p: nat) returns (o: nat)
    requires IsUnion(all, lists) && p < |all|
    ensures o < |lists| && Split(lists[o], all, p) < |lists[o]| && lists[o][Split(lists[o], all, p)] == all[p]
  {
    hide Split;
    assert all[p] in all;
    o :| 0 <= o < |lists| && all[p] in lists[o];
    var j :| 0 <= j < |lists[o]| && lists[o][j] == all[p];
    SplitAt(all, lists, p, o, j);
    if j > 0 {
      assert Less(lists[o][j - 1].Ikey(), lists[o][j].Ikey());
      SplitAt(all, lists, p, o, j - 1);
    }
  }

  /** One place further in the union is one entry further in its owner and no move in any other child. */
  lemma SplitStep(all: seq<Entry>, lists: seq<seq<Entry>>, p: nat, i: nat)
    requires IsUnion(all, lists) && p < |all| && i < |lists|
    ensures var s := Split(lists[i], all, p);
            s <= |lists[i]| && Split(lists[i], all, p + 1) == if s < |lists[i]| && lists[i][s] == all[p] then s + 1
                                                              else s
  {
    var es, s, t := lists[i], Split(lists[i], all, p), Split(lists[i], all, p + 1);
    SplitBounded(all, lists, p, i);
    SplitBounded(all, lists, p + 1, i);
    if s < |es| { StepAt(all, lists, p, i, s); }
    if t < |es| { StepAt(all, lists, p, i, t); }
    if s < |es| && es[s] == all[p] && s + 1 < |es| {
      StepAt(all, lists, p, i, s + 1);
      assert Less(es[s].Ikey(), es[s + 1].Ikey());
    }
    if t > 0 { StepAt(all, lists, p, i, t - 1); }
  }

  lemma StepAt(all: seq<Entry>, lists: seq<seq<Entry>>, p: nat, i: nat, j: nat)
    requires IsUnion(all, lists) && p < |all| && i < |lists| && j < |lists[i]|
    ensures j < Split(lists[i], all, p + 1) <==> j < Split(lists[i], all, p) || lists[i][j] == all[p]
  {
    SplitAt(all, lists, p, i, j);
    SplitAt(all, lists, p + 1, i, j);
    var q := PlaceOf(all, lists, i, j);
    if q < p {
      assert Less(all[q].Ikey(), all[p].Ikey());
      assert p + 1 < |all| ==> Less(all[q].Ikey(), all[p + 1].Ikey());
    } else if q > p {
      assert Less(all[p].Ikey(), all[q].Ikey());
      assert q > p + 1 ==> Less(all[p + 1].Ikey(), all[q].Ikey());
    }
  }

  lemma PlaceOf(all: seq<Entry>, lists: seq<seq<Entry>>, i: nat, j: nat) returns (q: nat)
    requires IsUnion(all, lists) && i < |lists| && j < |lists[i]|
    ensures q < |all| && all[q] == lists[i][j]
  {
    assert lists[i][j] in lists[i];
    assert lists[i][j] in all;
    q :| 0 <= q < |all| && all[q] == lists[i][j];
  }

  // ---------- what the children's positions mean ----------

  ghost function Lists(children: seq<Cursor>): (lists: seq<seq<Entry>>)
    ensures |lists| == |children| && forall i :: 0 <= i < |children| ==> lists[i] == children[i].es
  {
    seq(|children|, i requires 0 <= i < |children| => children[i].es)
  }

  /** Every child stands at its first entry at or after place `p`. */
  ghost predicate AllAfter(children: seq<Cursor>, all: seq<Entry>, p: nat)
    reads children
  {
    forall i :: 0 <= i < |children| ==> children[i].pos == Split(children[i].es, all, p)
  }

  /** Every child stands at its last entry before place `p`, or nowhere. */
  ghost predicate AllBefore(children: seq<Cursor>, all: seq<Entry>, p: nat)
    reads children
  {
    forall i :: 0 <= i < |children| ==> children[i].pos == PrevPos(children[i].es, Split(children[i].es, all, p))
  }

  ghost predicate Separate(children: seq<Cursor>) {
    forall i, j :: 0 <= i < j < |children| ==> children[i] != children[j]
  }

  datatype Direction = Forward | Reverse

  class MergingIterator {
    const children: seq<Cursor>
    /** Index of the current child, |children| if none. */
    var current: nat
    var direction: Direction
    ghost const all: seq<Entry>
    /** The place of the current entry in the union, |all| if none. */
    ghost var at: nat

    ghost predicate Ok()
      reads this, children
    {
      && Separate(children) && IsUnion(all, Lists(children))
      && current <= |children| && at <= |all| && (current < |children| <==> at < |all|)
      && (at < |all| ==> children[current].Valid() && children[current].Current() == all[at]
                         && if direction == Forward then AllAfter(children, all, at)
                            else AllBefore(children, all, at + 1))
    }

    constructor (children: seq<Cursor>, ghost all: seq<Entry>)
      requires Separate(children) && IsUnion(all, Lists(children))
      ensures Ok() && this.children == children && this.all == all && at == |all|
    {
      this.children := children;
      this.all := all;
      current, direction, at := |children|, Forward, |all|;
    }

    predicate Valid()
      reads this
    {
      current < |children|
    }

    function Current(): Entry
      requires Valid() && children[current].Valid()
      reads this, children
    {
      children[current].Current()
    }

    method FindSmallest(ghost p: nat)
      requires Separate(children) && IsUnion(all, Lists(children)) && p <= |all| && AllAfter(children, all, p)
      modifies this
      ensures direction == old(direction) && at == p && current <= |children| && (current < |children| <==> p < |all|)
      ensures p < |all| ==> children[current].Valid() && children[current].Current() == all[p]
    {
      hide IsUnion, Split, Sorted, AllAfter, Separate;
      var smallest: nat := |children|;
      var i := 0;
      while i < |children|
        invariant 0 <= i <= |children| && smallest <= |children|
        invariant smallest < |children| ==> smallest < i && children[smallest].Valid()
        invariant forall j :: 0 <= j < i && children[j].Valid() ==>
                    smallest < |children| && !Less(children[j].Current().Ikey(), children[smallest].Current().Ikey())
      {
        if children[i].Valid() {
          if smallest == |children| {
            smallest := i;
          } else if Less(children[i].Current().Ikey(), children[smallest].Current().Ikey()) {
            smallest := i;
          }
        }
        i := i + 1;
      }
      current := smallest;
      at := p;
      LeastIsNext(children, all, p, smallest);
    }

    method FindLargest(ghost p: nat)
      requires Separate(children) && IsUnion(all, Lists(children)) && p <= |all| && AllBefore(children, all, p)
      modifies this
      ensures direction == old(direction) && at == PrevPos(all, p) && current <= |children|
      ensures (current < |children| <==> at < |all|)
      ensures at < |all| ==> children[current].Valid() && children[current].Current() == all[at]
    {
      hide IsUnion, Split, Sorted, AllBefore, Separate;
      var largest: nat := |children|;
      var i := |children|;
      while i > 0
        invariant 0 <= i <= |children| && largest <= |children|
        invariant largest < |children| ==> i <= largest && children[largest].Valid()
        invariant forall j :: i <= j < |children| && children[j].Valid() ==>
                    largest < |children| && !Less(children[largest].Current().Ikey(), children[j].Current().Ikey())
      {
        i := i - 1;
        if children[i].Valid() {
          if largest == |children| {
            largest := i;
          } else if Less(children[largest].Current().Ikey(), children[i].Current().Ikey()) {
            largest := i;
          }
        }
      }
      current := largest;
      at := PrevPos(all, p);
      GreatestIsPrevious(children, all, p, largest);
    }

    method SeekToFirst()
      requires Ok()
      modifies this, children
      ensures Ok() && at == 0
    {
      hide IsUnion, Sorted;
      var i := 0;
      while i < |children|
        invariant 0 <= i <= |children| && forall j :: 0 <= j < i ==> children[j].pos == 0
      {
        children[i].SeekToFirst();
        i := i + 1;
      }
      FirstSplit(children, all);
      FindSmallest(0);
      direction := Forward;
    }

    method SeekToLast()
      requires Ok()
      modifies this, children
      ensures Ok() && at == LastPos(all)
    {
      hide IsUnion, Sorted;
      var i := 0;
      while i < |children|
        invariant 0 <= i <= |children| && forall j :: 0 <= j < i ==> children[j].pos == LastPos(children[j].es)
      {
        children[i].SeekToLast();
        i := i + 1;
      }
      FindLargest(|all|);
      direction := Reverse;
    }

    method Seek(target: InternalKey)
      requires Ok()
      modifies this, children
      ensures Ok() && at == SeekPos(all, target)
    {
      hide IsUnion, Sorted;
      var i := 0;
      while i < |children|
        invariant 0 <= i <= |children| && forall j :: 0 <= j < i ==> children[j].pos == SeekPos(children[j].es, target)
      {
        children[i].Seek(target);
        i := i + 1;
      }
      SeekSplit(children, all, target);
      FindSmallest(SeekPos(all, target));
      direction := Forward;
    }

    method Next()
      requires Ok() && Valid()
      modifies this, children
      ensures Ok() && at == NextPos(all, old(at))
    {
      hide IsUnion, Split, Sorted;
      ghost var p := at;
      if direction != Forward {
        AfterReverse();
        direction := Forward;
      }
      CurrentStep(children, all, p, current);
      children[current].Next();
      FindSmallest(p + 1);
    }

    /** The children other than the current one move to their first entries after the current key. */
    method AfterReverse()
      requires Ok() && Valid()
      modifies children
      ensures forall j :: 0 <= j < |children| && j != current ==> children[j].pos == Split(children[j].es, all, at + 1)
      ensures children[current].pos == old(children[current].pos)
    {
      hide IsUnion, Split, Sorted;
      var key := Current().Ikey();
      var i := 0;
      while i < |children|
        invariant 0 <= i <= |children| && children[current].pos == old(children[current].pos)
        invariant forall j :: 0 <= j < i && j != current ==> children[j].pos == Split(children[j].es, all, at + 1)
      {
        var child := children[i];
        if i != current {
          child.Seek(key);
          FirstAfter(all, Lists(children), at, i);
          if child.Valid() && child.Current().Ikey() == key {
            child.Next();
          }
        }
        i := i + 1;
      }
    }

    method Prev()
      requires Ok() && Valid()
      modifies this, children
      ensures Ok() && at == PrevPos(all, old(at))
    {
      hide IsUnion, Split, Sorted;
      ghost var p := at;
      if direction != Reverse {
        BeforeForward();
        direction := Reverse;
      }
      CurrentStep(children, all, p, current);
      children[current].Prev();
      FindLargest(p);
    }

    /** The children other than the current one move to their last entries before the current key. */
    method BeforeForward()
      requires Ok() && Valid()
      modifies children
      ensures forall j :: 0 <= j < |children| && j != current ==>
                children[j].pos == PrevPos(children[j].es, Split(children[j].es, all, at))
      ensures children[current].pos == old(children[current].pos)
    {
      hide IsUnion, Sorted;
      var key := Current().Ikey();
      var i := 0;
      while i < |children|
        invariant 0 <= i <= |children| && children[current].pos == old(children[current].pos)
        invariant forall j :: 0 <= j < i && j != current ==>
                    children[j].pos == PrevPos(children[j].es, Split(children[j].es, all, at))
      {
        var child := children[i];
        if i != current {
          child.Seek(key);
          SplitBounded(all, Lists(children), at, i);
          if child.Valid() {
            child.Prev();
          } else {
            child.SeekToLast();
          }
        }
        i := i + 1;
      }
    }
  }

  lemma LeastIsNext(children: seq<Cursor>, all: seq<Entry>, p: nat, c: nat)
    requires IsUnion(all, Lists(children)) && p <= |all| && AllAfter(children, all, p)
    requires c < |children| ==> children[c].Valid()
    requires forall j :: 0 <= j < |children| && children[j].Valid() ==>
               c < |children| && !Less(children[j].Current().Ikey(), children[c].Current().Ikey())
    ensures c < |children| <==> p < |all|
    ensures p < |all| ==> children[c].Current() == all[p]
  {
    var lists := Lists(children);
    if c < |children| {
      SplitAt(all, lists, p, c, children[c].pos);
    }
    if p < |all| {
      var o := Owner(all, lists, p);
      assert children[o].Valid() && children[o].Current() == all[p];
      var q := PlaceOf(all, lists, c, children[c].pos);
    }
  }

  lemma GreatestIsPrevious(children: seq<Cursor>, all: seq<Entry>, p: nat, c: nat)
    requires IsUnion(all, Lists(children)) && p <= |all| && AllBefore(children, all, p)
    requires c < |children| ==> children[c].Valid()
    requires forall j :: 0 <= j < |children| && children[j].Valid() ==>
               c < |children| && !Less(children[c].Current().Ikey(), children[j].Current().Ikey())
    ensures c < |children| <==> PrevPos(all, p) < |all|
    ensures PrevPos(all, p) < |all| ==> children[c].Current() == all[PrevPos(all, p)]
  {
    hide Split, IsUnion;
    if c < |children| {
      CurrentIsBefore(children, all, p, c);
    }
    if p > 0 {
      var o := LastBefore(children, all, p);
    }
  }

  /** What a child shows lies before the position. */
  lemma CurrentIsBefore(children: seq<Cursor>, all: seq<Entry>, p: nat, c: nat)
    requires IsUnion(all, Lists(children)) && p <= |all| && AllBefore(children, all, p)
    requires c < |children| && children[c].Valid()
    ensures p > 0
    ensures children[c].Current() == all[p - 1] || Less(children[c].Current().Ikey(), all[p - 1].Ikey())
  {
    var lists := Lists(children);
    SplitBounded(all, lists, p, c);
    SplitAt(all, lists, p, c, children[c].pos);
    var q := PlaceOf(all, lists, c, children[c].pos);
  }

  /** Some child shows the entry just before the position. */
  lemma LastBefore(children: seq<Cursor>, all: seq<Entry>, p: nat) returns (o: nat)
    requires IsUnion(all, Lists(children)) && 0 < p <= |all| && AllBefore(children, all, p)
    ensures o < |children| && children[o].Valid() && children[o].Current() == all[p - 1]
  {
    var lists := Lists(children);
    o := Owner(all, lists, p - 1);
    SplitStep(all, lists, p - 1, o);
  }

  lemma FirstSplit(children: seq<Cursor>, all: seq<Entry>)
    requires IsUnion(all, Lists(children)) && forall j :: 0 <= j < |children| ==> children[j].pos == 0
    ensures AllAfter(children, all, 0)
  {
    var lists := Lists(children);
    forall i | 0 <= i < |children| ensures Split(children[i].es, all, 0) == 0 {
      SplitBounded(all, lists, 0, i);
      if lists[i] != [] {
        SplitAt(all, lists, 0, i, 0);
        var q := PlaceOf(all, lists, i, 0);
        assert q > 0 ==> Less(all[0].Ikey(), all[q].Ikey());
      }
    }
  }

  lemma SeekSplit(children: seq<Cursor>, all: seq<Entry>, target: InternalKey)
    requires IsUnion(all, Lists(children)) && forall j :: 0 <= j < |children| ==>
               children[j].pos == SeekPos(children[j].es, target)
    ensures SeekPos(all, target) <= |all| && AllAfter(children, all, SeekPos(all, target))
  {
    var lists, p := Lists(children), SeekPos(all, target);
    SeekPosSplits(all, target);
    forall i | 0 <= i < |children| ensures Split(children[i].es, all, p) == SeekPos(children[i].es, target) {
      var es, s, t := lists[i], Split(lists[i], all, p), SeekPos(lists[i], target);
      SplitBounded(all, lists, p, i);
      SeekPosSplits(es, target);
      if s < |es| { SeekSplitAt(all, lists, target, i, s); }
      if t < |es| { SeekSplitAt(all, lists, target, i, t); }
    }
  }

  lemma SeekSplitAt(all: seq<Entry>, lists: seq<seq<Entry>>, target: InternalKey, i: nat, j: nat)
    requires IsUnion(all, lists) && i < |lists| && j < |lists[i]|
    ensures j < Split(lists[i], all, SeekPos(all, target)) <==> j < SeekPos(lists[i], target)
  {
    var p := SeekPos(all, target);
    SeekPosSplits(all, target);
    SeekPosSplits(lists[i], target);
    SplitAt(all, lists, p, i, j);
    var q := PlaceOf(all, lists, i, j);
    if p < q { assert Less(all[p].Ikey(), all[q].Ikey()); }
    if q < p < |all| { assert Less(all[q].Ikey(), all[p].Ikey()); }
  }

  /** Past the current entry only the current child has anything to leave behind. */
  lemma CurrentStep(children: seq<Cursor>, all: seq<Entry>, p: nat, c: nat)
    requires IsUnion(all, Lists(children)) && p < |all| && c < |children|
    requires children[c].Valid() && children[c].Current() == all[p]
    ensures Split(children[c].es, all, p) == children[c].pos && Split(children[c].es, all, p + 1) == children[c].pos + 1
    ensures forall i :: 0 <= i < |children| && i != c ==>
              Split(children[i].es, all, p + 1) == Split(children[i].es, all, p)
  {
    var lists := Lists(children);
    SplitStep(all, lists, p, c);
    SplitAt(all, lists, p, c, children[c].pos);
    if children[c].pos > 0 {
      assert Less(lists[c][children[c].pos - 1].Ikey(), lists[c][children[c].pos].Ikey());
      SplitAt(all, lists, p, c, children[c].pos - 1);
    }
    forall i | 0 <= i < |children| && i != c
      ensures Split(children[i].es, all, p + 1) == Split(children[i].es, all, p)
    {
      SplitStep(all, lists, p, i);
      assert lists[c][children[c].pos] in lists[c];
      if i < c {
        assert forall a: Entry :: a in lists[i] ==> a.Ikey() != all[p].Ikey();
      } else {
        assert forall b: Entry :: b in lists[i] ==> b.Ikey() != all[p].Ikey();
      }
    }
  }

  /** Seeking to a key and stepping over it reaches the first entry after it, whether or not the key is there. */
  lemma FirstAfter(all: seq<Entry>, lists: seq<seq<Entry>>, p: nat, i: nat)
    requires IsUnion(all, lists) && p < |all| && i < |lists|
    ensures var s := SeekPos(lists[i], all[p].Ikey());
            s <= |lists[i]| && Split(lists[i], all, p + 1) == if s < |lists[i]| && lists[i][s].Ikey() == all[p].Ikey()
                                                              then s + 1 else s
  {
    SplitStep(all, lists, p, i);
    var s := SeekPos(lists[i], all[p].Ikey());
    if s < |lists[i]| && lists[i][s].Ikey() == all[p].Ikey() {
      var q := PlaceOf(all, lists, i, s);
      if q != p { assert if q < p then Less(all[q].Ikey(), all[p].Ikey()) else Less(all[p].Ikey(), all[q].Ikey()); }
    }
  }
}
