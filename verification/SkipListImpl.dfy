/** The list's methods as the one thread that holds the write lock runs them (db/skiplist.h). */
module SkipListImpl {
  import opened Wrappers
  import opened SkipList
  import Runs = SkipListRuns

  /** A search stands at `x`, place `at` of the level's chain, before `bound`. */
  ghost predicate Standing(m: Memory, c: Chains, level: nat, at: nat, x: NodeId, bound: Bound) {
    && level < m.maxHeight && level < MAX_HEIGHT && level < |c| && at < |c[level]| && c[level][at] == x
    && x < |m.nodes| && level < |m.nodes[x].next| && Before(m.nodes, x, bound)
    && m.nodes[x].next[level] == After(c[level], at)
  }

  lemma StandsAtHead(m: Memory, c: Chains, bound: Bound)
    requires Good(m, c)
    ensures Standing(m, c, m.maxHeight - 1, 0, HEAD, bound)
  {
    assert Spells(m.nodes, m.maxHeight - 1, c[m.maxHeight - 1]);
  }

  lemma StepsDown(m: Memory, c: Chains, level: nat, at: nat, x: NodeId, bound: Bound) returns (below: nat)
    requires Good(m, c) && Standing(m, c, level, at, x, bound) && level > 0
    ensures Standing(m, c, level - 1, below, x, bound)
  {
    assert SubChain(c[level], c[level - 1]);
    assert c[level][at] in c[level];
    var chain := c[level - 1];
    assert Spells(m.nodes, level - 1, chain) && x in chain;
    below :| 0 <= below < |chain| && chain[below] == x;
  }

  lemma StepsOn(m: Memory, c: Chains, level: nat, at: nat, x: NodeId, bound: Bound)
    requires Good(m, c) && Standing(m, c, level, at, x, bound) && m.nodes[x].next[level].Some?
    ensures m.nodes[x].next[level].value < |m.nodes|
    ensures KeyIsAfter(m.nodes, bound, m.nodes[x].next[level]) ==>
              Standing(m, c, level, at + 1, m.nodes[x].next[level].value, bound)
  {
    assert Spells(m.nodes, level, c[level]);
  }

  lemma StandsLast(m: Memory, c: Chains, level: nat, at: nat, x: NodeId, bound: Bound)
    requires Standing(m, c, level, at, x, bound) && !KeyIsAfter(m.nodes, bound, m.nodes[x].next[level])
    ensures LastBefore(m, c, level, x, bound)
  {
    assert c[level][at] in c[level];
  }

  /** `next` is the first node at or after `bound`. */
  ghost predicate IsFirstFrom(m: Memory, c: Chains, bound: Bound, next: Option<NodeId>) {
    && (next.Some? ==> next.value < |m.nodes| && m.nodes[next.value].key in Keys(m, c) && bound.Some?
                       && bound.value <= m.nodes[next.value].key)
    && (forall k :: k in Keys(m, c) && bound.Some? && bound.value <= k ==> next.Some? && m.nodes[next.value].key <= k)
  }

  /** `x` is the last node before `bound`, the head if there is none. */
  ghost predicate IsLastBefore(m: Memory, c: Chains, bound: Bound, x: NodeId) {
    && x < |m.nodes| && (x != HEAD ==> m.nodes[x].key in Keys(m, c) && (bound.Some? ==> m.nodes[x].key < bound.value))
    && (forall k :: k in Keys(m, c) && (bound.Some? ==> k < bound.value) ==> x != HEAD && k <= m.nodes[x].key)
  }

  /** At level 0, the last node before `bound` and its link answer the search. */
  lemma AnswerAtBottom(m: Memory, c: Chains, x: NodeId, bound: Bound)
    requires Good(m, c) && LastBefore(m, c, 0, x, bound)
    ensures IsFirstFrom(m, c, bound, m.nodes[x].next[0]) && IsLastBefore(m, c, bound, x)
  {
    NextOnChain(m, c, 0, x);
    LinkIsAdjacent(m, c, x);
  }

  /** `prev` holds the last node before `key` on every level in use from `from` up. */
  ghost predicate PlacesAbove(m: Memory, c: Chains, from: nat, prev: seq<NodeId>, key: Key) {
    |prev| == MAX_HEIGHT && forall l :: from <= l < m.maxHeight && l < MAX_HEIGHT ==>
      LastBefore(m, c, l, prev[l], Some(key))
  }

  lemma FoundIsOk(m: Memory, c: Chains, key: Key, prev: seq<NodeId>)
    requires Good(m, c) && key !in Keys(m, c) && PlacesAbove(m, c, 0, prev, key)
    ensures Runs.WriterOk(m, c, Runs.Found(key, prev))
  {
    forall l | 0 <= l < MAX_HEIGHT ensures KeyFree(m, c, l, key) { Runs.KeyFreeAbove(m, c, l, key); }
  }

  class List {
    var m: Memory
    ghost var c: Chains

    ghost predicate Valid()
      reads this
    {
      Good(m, c) && Runs.TopIsEmpty(m, c)
    }

    ghost function Contents(): set<Key>
      reads this
    {
      Keys(m, c)
    }

    constructor ()
      ensures Valid() && Contents() == {}
    {
      m := Memory([Node(0.0, seq(MAX_HEIGHT, _ => None))], 1);
      c := seq(MAX_HEIGHT, _ => [HEAD]);
    }

    /** The first node at or after `key`; `prev` gets the last node before it on every level in use. */
    method FindGreaterOrEqual(key: Key) returns (next: Option<NodeId>, prev: seq<NodeId>)
      requires Valid()
      ensures IsFirstFrom(m, c, Some(key), next) && PlacesAbove(m, c, 0, prev, key)
    {
      hide Spells, Nested, KeysOf;
      var x, level := HEAD, m.maxHeight - 1;
      prev := seq(MAX_HEIGHT, _ => HEAD);
      ghost var at := 0;
      StandsAtHead(m, c, Some(key));
      while true
        invariant 0 <= level && Standing(m, c, level, at, x, Some(key)) && PlacesAbove(m, c, level + 1, prev, key)
        decreases level, |c[level]| - at
      {
        next := m.nodes[x].next[level];
        if next.Some? { StepsOn(m, c, level, at, x, Some(key)); }
        if KeyIsAfter(m.nodes, Some(key), next) {
          x, at := next.value, at + 1;
        } else {
          StandsLast(m, c, level, at, x, Some(key));
          prev := prev[level := x];
          if level == 0 {
            AnswerAtBottom(m, c, x, Some(key));
            return;
          }
          at := StepsDown(m, c, level, at, x, Some(key));
          level := level - 1;
        }
      }
    }

    /** The last node before `bound`; FindLast when the bound is the end of the list. */
    method FindLessThan(bound: Bound) returns (x: NodeId)
      requires Valid()
      ensures IsLastBefore(m, c, bound, x)
    {
      hide Spells, Nested, KeysOf;
      x := HEAD;
      var level := m.maxHeight - 1;
      ghost var at := 0;
      StandsAtHead(m, c, bound);
      while true
        invariant 0 <= level && Standing(m, c, level, at, x, bound)
        decreases level, |c[level]| - at
      {
        var next := m.nodes[x].next[level];
        if next.Some? { StepsOn(m, c, level, at, x, bound); }
        if next == None || (bound.Some? && bound.value <= m.nodes[next.value].key) {
          StandsLast(m, c, level, at, x, bound);
          if level == 0 {
            AnswerAtBottom(m, c, x, bound);
            return;
          }
          at := StepsDown(m, c, level, at, x, bound);
          level := level - 1;
        } else {
          x, at := next.value, at + 1;
        }
      }
    }

    /** The new node is allocated and the height raised; no reader can reach the node yet. */
    method Allocate(key: Key, height: nat, found: seq<NodeId>) returns (x: NodeId, prev: seq<NodeId>)
      requires Valid() && 1 <= height <= MAX_HEIGHT && Runs.WriterOk(m, c, Runs.Found(key, found))
      modifies this`m
      ensures Valid() && Contents() == old(Contents())
      ensures Runs.WriterOk(m, c, Runs.Linking(key, height, 0, prev, x, false))
    {
      ghost var before := Runs.State(m, c, Runs.Found(key, found), []);
      var h := m.maxHeight;
      x := |m.nodes|;
      prev := seq(MAX_HEIGHT, l requires 0 <= l < MAX_HEIGHT => if h <= l < height then HEAD else found[l]);
      m := Memory(m.nodes + [Node(key, seq(height, _ => None))], if height > h then height else h);
      ghost var s := Runs.State(m, c, Runs.Linking(key, height, 0, prev, x, false), []);
      Runs.AllocateKeeps(before, s);
    }

    /** Links `x` at level i: its own link first, then the link that publishes it. */
    method LinkLevel(key: Key, height: nat, i: nat, prev: seq<NodeId>, x: NodeId)
      requires Valid() && Runs.WriterOk(m, c, Runs.Linking(key, height, i, prev, x, false))
      modifies this
      ensures Valid() && Contents() == old(Contents()) + if i == 0 then {key} else {}
      ensures i + 1 < height ==> Runs.WriterOk(m, c, Runs.Linking(key, height, i + 1, prev, x, false))
    {
      hide Spells, Nested, KeysOf;
      ghost var s0 := Runs.State(m, c, Runs.Linking(key, height, i, prev, x, false), []);
      assert LastBefore(m, c, i, prev[i], Some(key));
      m := SetNext(m, x, i, m.nodes[prev[i]].next[i]);
      ghost var s1 := Runs.State(m, c, Runs.Linking(key, height, i, prev, x, true), []);
      Runs.CopyKeeps(s0, s1);
      assert LastBefore(m, c, i, prev[i], Some(key));
      ghost var c' := Publish(m, c, i, prev[i], x);
      m, c := SetNext(m, prev[i], i, Some(x)), c';
      ghost var s2 := Runs.State(m, c, if i + 1 == height then Runs.Idle
                                       else Runs.Linking(key, height, i + 1, prev, x, false), []);
      Runs.PublishKeeps(s1, s2);
    }

    /** Links a new node of any height at every level below it. The caller rules out duplicates. */
    method Insert(key: Key, height: nat)
      requires Valid() && key !in Contents() && 1 <= height <= MAX_HEIGHT
      modifies this
      ensures Valid() && Contents() == old(Contents()) + {key}
    {
      hide Spells, Nested, KeysOf, Runs.WriterOk, Runs.TopIsEmpty;
      var next, found := FindGreaterOrEqual(key);
      FoundIsOk(m, c, key, found);
      var x, prev := Allocate(key, height, found);
      var i := 0;
      while i < height
        invariant 0 <= i <= height
        invariant Valid() && Contents() == old(Contents()) + if i == 0 then {} else {key}
        invariant i < height ==> Runs.WriterOk(m, c, Runs.Linking(key, height, i, prev, x, false))
      {
        LinkLevel(key, height, i, prev, x);
        i := i + 1;
      }
    }
  }
}
