/**
 The skip list under one writer and any number of lock-free readers
 (db/skiplist.h). Every load and store of a link is one atomic step; stores are
 sequentially consistent. Node 0 is the head. Keys are ranks in the list's
 total order.
 */
module SkipList {
  import opened Wrappers

  type Key = real
  type NodeId = nat

  const MAX_HEIGHT: nat := 12
  const HEAD: NodeId := 0

  /** A node and its links, one for each level below its height. */
  datatype Node = Node(key: Key, next: seq<Option<NodeId>>)

  datatype Memory = Memory(nodes: seq<Node>, maxHeight: nat)

  /** Auxiliary: the node ids on each level, head first. */
  type Chains = seq<seq<NodeId>>

  // ---------- well-formed lists ----------

  function After(chain: seq<NodeId>, i: nat): Option<NodeId> {
    if i + 1 < |chain| then Some(chain[i + 1]) else None
  }

  /** The links of `level` spell out `chain`, in strictly increasing key order. */
  ghost predicate Spells(nodes: seq<Node>, level: nat, chain: seq<NodeId>) {
    && chain != [] && chain[0] == HEAD
    && (forall i :: 0 <= i < |chain| ==> chain[i] < |nodes| && level < |nodes[chain[i]].next|)
    && (forall i :: 0 <= i < |chain| ==> nodes[chain[i]].next[level] == After(chain, i))
    && (forall i, j :: 1 <= i < j < |chain| ==> nodes[chain[i]].key < nodes[chain[j]].key)
    && (forall i :: 1 <= i < |chain| ==> chain[i] != HEAD)
  }

  ghost predicate SubChain(upper: seq<NodeId>, lower: seq<NodeId>) {
    forall n :: n in upper ==> n in lower
  }

  /** Every level holds only nodes of the levels below it. */
  ghost predicate Nested(c: Chains) {
    forall l, u {:trigger SubChain(c[u], c[l])} :: 0 <= l < u < |c| ==> SubChain(c[u], c[l])
  }

  ghost predicate Good(m: Memory, c: Chains) {
    && |c| == MAX_HEIGHT && 1 <= m.maxHeight <= MAX_HEIGHT
    && (forall l :: 0 <= l < MAX_HEIGHT ==> Spells(m.nodes, l, c[l]))
    && Nested(c)
  }

  /** The keys a search can find. */
  ghost function KeysOf(nodes: seq<Node>, chain: seq<NodeId>): set<Key> {
    set n | n in chain && n != HEAD && n < |nodes| :: nodes[n].key
  }

  ghost function Keys(m: Memory, c: Chains): set<Key> {
    if |c| == 0 then {} else KeysOf(m.nodes, c[0])
  }

  /** What a search looks for: the first node at or after a key, or the end of the list. */
  type Bound = Option<Key>

  predicate Before(nodes: seq<Node>, x: NodeId, bound: Bound) {
    x == HEAD || (x < |nodes| && (bound.Some? ==> nodes[x].key < bound.value))
  }

  /** KeyIsAfterNode: a null link is after every key, and even the end of the list comes before it. */
  predicate KeyIsAfter(nodes: seq<Node>, bound: Bound, n: Option<NodeId>) {
    n.Some? && n.value < |nodes| && (bound.Some? ==> nodes[n.value].key < bound.value)
  }

  /** `p` is the last node of `level` before `bound`. */
  ghost predicate LastBefore(m: Memory, c: Chains, level: nat, p: NodeId, bound: Bound) {
    && level < |c| && p in c[level] && p < |m.nodes| && level < |m.nodes[p].next| && Before(m.nodes, p, bound)
    && !KeyIsAfter(m.nodes, bound, m.nodes[p].next[level])
  }

  /** No node of `level` holds `key`. */
  ghost predicate KeyFree(m: Memory, c: Chains, level: nat, key: Key) {
    level < |c| && forall n :: n in c[level] && n != HEAD && n < |m.nodes| ==> m.nodes[n].key != key
  }

  /** Nothing of `keys` lies strictly between the adjacent places `x` and `n`. */
  ghost predicate Adjacent(nodes: seq<Node>, x: NodeId, n: Option<NodeId>, keys: set<Key>) {
    && x < |nodes| && (n.Some? ==> n.value < |nodes|)
    && (forall k :: k in keys ==> (x != HEAD && k <= nodes[x].key) || (n.Some? && nodes[n.value].key <= k))
  }

  // ---------- one load of a search ----------

  lemma NextOnChain(m: Memory, c: Chains, level: nat, x: NodeId)
    requires Good(m, c) && level < MAX_HEIGHT && x in c[level]
    ensures x < |m.nodes| && level < |m.nodes[x].next|
    ensures var n := m.nodes[x].next[level];
            n.Some? ==> n.value in c[level] && n.value != HEAD && n.value < |m.nodes|
                        && (x != HEAD ==> m.nodes[x].key < m.nodes[n.value].key)
  {
    assert Spells(m.nodes, level, c[level]);
    var i :| 0 <= i < |c[level]| && c[level][i] == x;
    if i + 1 < |c[level]| {
      assert m.nodes[x].next[level] == After(c[level], i);
      assert c[level][i + 1] in c[level];
      if x != HEAD { assert i >= 1; }
    }
  }

  /** A node of level 0 and its link enclose none of the keys now in the list. */
  lemma LinkIsAdjacent(m: Memory, c: Chains, x: NodeId)
    requires Good(m, c) && x in c[0]
    ensures x < |m.nodes| && 0 < |m.nodes[x].next| && Adjacent(m.nodes, x, m.nodes[x].next[0], Keys(m, c))
  {
    NextOnChain(m, c, 0, x);
    assert Spells(m.nodes, 0, c[0]);
    var i :| 0 <= i < |c[0]| && c[0][i] == x;
    forall k | k in Keys(m, c)
      ensures (x != HEAD && k <= m.nodes[x].key)
              || (m.nodes[x].next[0].Some? && m.nodes[m.nodes[x].next[0].value].key <= k)
    {
      var n :| n in c[0] && n != HEAD && n < |m.nodes| && m.nodes[n].key == k;
      var j :| 0 <= j < |c[0]| && c[0][j] == n;
      if j > i {
        assert m.nodes[x].next[0] == After(c[0], i);
      }
    }
  }

  // ---------- the two stores that link a node at one level ----------

  function SetNext(m: Memory, n: NodeId, level: nat, v: Option<NodeId>): Memory
    requires n < |m.nodes| && level < |m.nodes[n].next|
  {
    m.(nodes := m.nodes[n := m.nodes[n].(next := m.nodes[n].next[level := v])])
  }

  /** What every step keeps of the list a reader is walking. */
  ghost predicate Grows(m: Memory, c: Chains, m': Memory, c': Chains) {
    && |m.nodes| <= |m'.nodes|
    && (forall n :: 0 <= n < |m.nodes| ==> m'.nodes[n].key == m.nodes[n].key)
    && |c'| == |c| && (forall l, n :: 0 <= l < |c| && n in c[l] ==> n in c'[l])
  }

  lemma GrowsKeys(m: Memory, c: Chains, m': Memory, c': Chains)
    requires Good(m, c) && Grows(m, c, m', c')
    ensures Keys(m, c) <= Keys(m', c')
  {
    assert Spells(m.nodes, 0, c[0]);
    forall k | k in Keys(m, c) ensures k in Keys(m', c') {
      var n :| n in c[0] && n != HEAD && n < |m.nodes| && m.nodes[n].key == k;
      assert n in c'[0] && m'.nodes[n].key == k;
    }
  }

  /** A store to a link of a node that is not on the level's chain changes no chain. */
  lemma PrivateStore(m: Memory, c: Chains, x: NodeId, level: nat, v: Option<NodeId>, m': Memory)
    requires Good(m, c) && level < MAX_HEIGHT && x < |m.nodes| && level < |m.nodes[x].next|
    requires x !in c[level]
    requires m' == SetNext(m, x, level, v)
    ensures Good(m', c) && Grows(m, c, m', c) && Keys(m', c) == Keys(m, c)
  {
    forall l | 0 <= l < MAX_HEIGHT ensures Spells(m'.nodes, l, c[l]) {
      assert Spells(m.nodes, l, c[l]);
      forall i | 0 <= i < |c[l]|
        ensures c[l][i] < |m'.nodes| && l < |m'.nodes[c[l][i]].next|
        ensures m'.nodes[c[l][i]].next[l] == m.nodes[c[l][i]].next[l]
      {
        if l == level { assert c[l][i] != x; }
      }
    }
    SameKeys(m.nodes, c[0], m'.nodes);
  }

  function Spliced(chain: seq<NodeId>, i: nat, x: NodeId): seq<NodeId>
    requires i < |chain|
  {
    chain[..i + 1] + [x] + chain[i + 1..]
  }

  lemma ChainDistinct(nodes: seq<Node>, level: nat, chain: seq<NodeId>, j: nat, k: nat)
    requires Spells(nodes, level, chain) && j < |chain| && k < |chain| && j != k
    ensures chain[j] != chain[k]
  {
    if 0 < j < k {
      assert nodes[chain[j]].key < nodes[chain[k]].key;
    } else if 0 < k < j {
      assert nodes[chain[k]].key < nodes[chain[j]].key;
    }
  }

  /** Publishing `x` after `chain[i]`: the chain of that level gains exactly `x`, in order. */
  lemma SpliceSpells(nodes: seq<Node>, level: nat, chain: seq<NodeId>, i: nat, x: NodeId, nodes': seq<Node>)
    requires Spells(nodes, level, chain) && i < |chain|
    requires x < |nodes| && x != HEAD && x !in chain && level < |nodes[x].next|
    requires nodes[x].next[level] == nodes[chain[i]].next[level]
    requires i > 0 ==> nodes[chain[i]].key < nodes[x].key
    requires i + 1 < |chain| ==> nodes[x].key < nodes[chain[i + 1]].key
    requires nodes' == nodes[chain[i] := nodes[chain[i]].(next := nodes[chain[i]].next[level := Some(x)])]
    ensures Spells(nodes', level, Spliced(chain, i, x))
  {
    var chain' := Spliced(chain, i, x);
    forall j | 0 <= j < |chain'|
      ensures chain'[j] < |nodes'| && level < |nodes'[chain'[j]].next|
      ensures nodes'[chain'[j]].next[level] == After(chain', j)
    {
      SpliceLink(nodes, level, chain, i, x, nodes', j);
    }
    SpliceOrder(nodes, level, chain, i, x);
    assert forall n :: 0 <= n < |nodes| ==> nodes'[n].key == nodes[n].key;
  }

  lemma SpliceLink(nodes: seq<Node>, level: nat, chain: seq<NodeId>, i: nat, x: NodeId, nodes': seq<Node>, j: nat)
    requires Spells(nodes, level, chain) && i < |chain| && j <= |chain|
    requires x < |nodes| && x !in chain && level < |nodes[x].next|
    requires nodes[x].next[level] == nodes[chain[i]].next[level]
    requires nodes' == nodes[chain[i] := nodes[chain[i]].(next := nodes[chain[i]].next[level := Some(x)])]
    ensures var s := Spliced(chain, i, x);
            s[j] < |nodes'| && level < |nodes'[s[j]].next| && nodes'[s[j]].next[level] == After(s, j)
  {
    SplicedAt(chain, i, x, j);
    if j < |chain| { SplicedAt(chain, i, x, j + 1); }
    if j != i && j != i + 1 {
      var o := if j < i then j else j - 1;
      ChainDistinct(nodes, level, chain, o, i);
    }
  }

  lemma SplicedAt(chain: seq<NodeId>, i: nat, x: NodeId, j: nat)
    requires i < |chain| && j < |chain| + 1
    ensures |Spliced(chain, i, x)| == |chain| + 1
    ensures Spliced(chain, i, x)[j] == if j <= i then chain[j] else if j == i + 1 then x else chain[j - 1]
  {
  }

  lemma SpliceOrder(nodes: seq<Node>, level: nat, chain: seq<NodeId>, i: nat, x: NodeId)
    requires Spells(nodes, level, chain) && i < |chain| && x < |nodes| && x != HEAD
    requires i > 0 ==> nodes[chain[i]].key < nodes[x].key
    requires i + 1 < |chain| ==> nodes[x].key < nodes[chain[i + 1]].key
    ensures var s := Spliced(chain, i, x);
            && (forall j :: 1 <= j < |s| ==> s[j] != HEAD && s[j] < |nodes|)
            && (forall j, k :: 1 <= j < k < |s| ==> nodes[s[j]].key < nodes[s[k]].key)
  {
    var s := Spliced(chain, i, x);
    forall j | 1 <= j < |s| ensures s[j] != HEAD && s[j] < |nodes| { SplicedAt(chain, i, x, j); }
    forall j, k | 1 <= j < k < |s| ensures nodes[s[j]].key < nodes[s[k]].key {
      SplicedAt(chain, i, x, j);
      SplicedAt(chain, i, x, k);
      if k == i + 1 {
        assert j < i ==> nodes[chain[j]].key < nodes[chain[i]].key;
      } else if j == i + 1 {
        assert k > i + 2 ==> nodes[chain[i + 1]].key < nodes[chain[k - 1]].key;
      }
    }
  }

  lemma OtherLevelSpells(nodes: seq<Node>, level: nat, other: nat, chain: seq<NodeId>, p: NodeId, v: Option<NodeId>,
                         nodes': seq<Node>)
    requires Spells(nodes, other, chain) && other != level && p < |nodes| && level < |nodes[p].next|
    requires nodes' == nodes[p := nodes[p].(next := nodes[p].next[level := v])]
    ensures Spells(nodes', other, chain)
  {
  }

  lemma PublishingStore(m: Memory, c: Chains, level: nat, i: nat, x: NodeId, m': Memory, c': Chains)
    requires Good(m, c) && level < MAX_HEIGHT && i < |c[level]|
    requires x < |m.nodes| && x != HEAD && x !in c[level] && level < |m.nodes[x].next|
    requires forall l :: 0 <= l < level ==> x in c[l]
    requires m.nodes[x].next[level] == m.nodes[c[level][i]].next[level]
    requires i > 0 ==> m.nodes[c[level][i]].key < m.nodes[x].key
    requires i + 1 < |c[level]| ==> m.nodes[x].key < m.nodes[c[level][i + 1]].key
    requires m' == SetNext(m, c[level][i], level, Some(x)) && c' == c[level := Spliced(c[level], i, x)]
    ensures Good(m', c')
  {
    assert Spells(m.nodes, level, c[level]);
    SpliceSpells(m.nodes, level, c[level], i, x, m'.nodes);
    forall l | 0 <= l < MAX_HEIGHT ensures Spells(m'.nodes, l, c'[l]) {
      if l != level { OtherLevelSpells(m.nodes, level, l, c[l], c[level][i], Some(x), m'.nodes); }
    }
    SplicedSubChains(c, level, i, x, c');
  }

  lemma SplicedSubChains(c: Chains, level: nat, i: nat, x: NodeId, c': Chains)
    requires |c| == MAX_HEIGHT && level < MAX_HEIGHT && i < |c[level]| && c' == c[level := Spliced(c[level], i, x)]
    requires Nested(c)
    requires forall l :: 0 <= l < level ==> x in c[l]
    ensures Nested(c')
  {
    SplicedMembers(c[level], i, x);
    forall l, u | 0 <= l < u < |c'| ensures SubChain(c'[u], c'[l]) {
      assert SubChain(c[u], c[l]);
    }
  }

  lemma PlaceOf(m: Memory, c: Chains, level: nat, p: NodeId, key: Key) returns (i: nat)
    requires Good(m, c) && level < MAX_HEIGHT
    requires LastBefore(m, c, level, p, Some(key)) && KeyFree(m, c, level, key)
    ensures i < |c[level]| && c[level][i] == p
    ensures i > 0 ==> p != HEAD && m.nodes[p].key < key
    ensures i + 1 < |c[level]| ==> c[level][i + 1] < |m.nodes| && key < m.nodes[c[level][i + 1]].key
  {
    assert Spells(m.nodes, level, c[level]);
    i :| 0 <= i < |c[level]| && c[level][i] == p;
    if i + 1 < |c[level]| {
      assert m.nodes[p].next[level] == After(c[level], i);
      assert c[level][i + 1] in c[level] && c[level][i + 1] != HEAD;
    }
  }

  /**
   The release store `prev->SetNext(level, x)`: where `p` is the last node before x's key and
   x's own link was copied from `p`, the level's chain gains exactly `x` and stays sorted.
   */
  lemma Publish(m: Memory, c: Chains, level: nat, p: NodeId, x: NodeId) returns (c': Chains)
    requires Good(m, c) && level < MAX_HEIGHT
    requires x < |m.nodes| && x != HEAD && x !in c[level] && level < |m.nodes[x].next|
    requires forall l :: 0 <= l < level ==> x in c[l]
    requires LastBefore(m, c, level, p, Some(m.nodes[x].key)) && KeyFree(m, c, level, m.nodes[x].key)
    requires m.nodes[x].next[level] == m.nodes[p].next[level]
    ensures var m' := SetNext(m, p, level, Some(x));
            && Good(m', c') && Grows(m, c, m', c')
            && Keys(m', c') == Keys(m, c) + if level == 0 then {m.nodes[x].key} else {}
    ensures (forall l :: 0 <= l < MAX_HEIGHT && l != level ==> c'[l] == c[l])
    ensures (forall n :: n in c'[level] <==> n == x || n in c[level])
  {
    var i := PlaceOf(m, c, level, p, m.nodes[x].key);
    assert x != p;
    var m' := SetNext(m, p, level, Some(x));
    c' := c[level := Spliced(c[level], i, x)];
    PublishingStore(m, c, level, i, x, m', c');
    PublishedKeys(m, c, level, i, x, m', c');
    SplicedMembers(c[level], i, x);
    StoreGrows(m, c, p, level, Some(x), c');
  }

  lemma StoreGrows(m: Memory, c: Chains, n: NodeId, level: nat, v: Option<NodeId>, c': Chains)
    requires n < |m.nodes| && level < |m.nodes[n].next|
    requires |c'| == |c| && (forall l :: 0 <= l < |c| && l != level ==> c'[l] == c[l])
    requires level < |c| && forall k :: k in c[level] ==> k in c'[level]
    ensures Grows(m, c, SetNext(m, n, level, v), c')
  {
  }

  lemma PublishedKeys(m: Memory, c: Chains, level: nat, i: nat, x: NodeId, m': Memory, c': Chains)
    requires |c| == MAX_HEIGHT && level < MAX_HEIGHT && i < |c[level]| && Spells(m.nodes, 0, c[0])
    requires x < |m.nodes| == |m'.nodes| && x != HEAD && c' == c[level := Spliced(c[level], i, x)]
    requires forall n :: 0 <= n < |m.nodes| ==> m'.nodes[n].key == m.nodes[n].key
    ensures Keys(m', c') == Keys(m, c) + if level == 0 then {m.nodes[x].key} else {}
  {
    SplicedKeys(m.nodes, c[level], i, x, m'.nodes);
    SameKeys(m.nodes, c[0], m'.nodes);
  }

  lemma SameKeys(nodes: seq<Node>, chain: seq<NodeId>, nodes': seq<Node>)
    requires |nodes| <= |nodes'| && forall n :: 0 <= n < |nodes| ==> nodes'[n].key == nodes[n].key
    requires forall n :: n in chain ==> n < |nodes|
    ensures KeysOf(nodes', chain) == KeysOf(nodes, chain)
  {
    forall k | k in KeysOf(nodes, chain) ensures k in KeysOf(nodes', chain) {
      var n :| n in chain && n != HEAD && n < |nodes| && nodes[n].key == k;
      assert nodes'[n].key == k;
    }
  }

  lemma SplicedMembers(chain: seq<NodeId>, i: nat, x: NodeId)
    requires i < |chain|
    ensures forall n :: n in Spliced(chain, i, x) <==> n == x || n in chain
  {
    assert chain == chain[..i + 1] + chain[i + 1..];
  }

  lemma SplicedKeys(nodes: seq<Node>, chain: seq<NodeId>, i: nat, x: NodeId, nodes': seq<Node>)
    requires i < |chain| && x < |nodes| == |nodes'| && x != HEAD
    requires forall n :: 0 <= n < |nodes| ==> nodes'[n].key == nodes[n].key
    ensures KeysOf(nodes', Spliced(chain, i, x)) == KeysOf(nodes, chain) + {nodes[x].key}
  {
    SplicedMembers(chain, i, x);
    assert x in Spliced(chain, i, x) && nodes'[x].key in KeysOf(nodes', Spliced(chain, i, x));
    forall k | k in KeysOf(nodes, chain) ensures k in KeysOf(nodes', Spliced(chain, i, x)) {
      var n :| n in chain && n != HEAD && n < |nodes| && nodes[n].key == k;
      assert nodes'[n].key == k && n in Spliced(chain, i, x);
    }
  }
}
