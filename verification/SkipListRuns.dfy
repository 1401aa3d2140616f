/**
 Insert and the searches of db/skiplist.h as interleaved atomic steps: one writer,
 any number of readers, one load or store of a link per step. A reader may start
 from any level, which covers every stale or too new value of the maximum height.
 */
module SkipListRuns {
  import opened Wrappers
  import opened SkipList

  datatype Writer =
    | Idle
    // inside FindGreaterOrEqual, about to load `x`'s link at `level`
    | Searching(key: Key, level: nat, x: NodeId, prev: seq<NodeId>)
    | Found(key: Key, prev: seq<NodeId>)
    // inside the linking loop of Insert; `copied` once the new node's own link is set
    | Linking(key: Key, height: nat, i: nat, prev: seq<NodeId>, x: NodeId, copied: bool)

  /**
   A search for `bound`: FindGreaterOrEqual and FindLessThan when it is a key, FindLast when
   it is the end of the list. `started` records the keys in the list when the search began.
   */
  datatype Reader =
    | Reading(bound: Bound, level: nat, x: NodeId, started: set<Key>)
    | Done(bound: Bound, x: NodeId, next: Option<NodeId>, started: set<Key>)

  datatype State = State(m: Memory, c: Chains, writer: Writer, readers: seq<Reader>)

  // ---------- the writer ----------

  predicate WriterInRange(m: Memory, w: Writer) {
    match w
    case Idle => true
    case Searching(_, level, x, prev) => x < |m.nodes| && level < |m.nodes[x].next| && level < |prev|
    case Found(_, prev) => |prev| == MAX_HEIGHT
    case Linking(_, height, i, prev, x, _) =>
      && x < |m.nodes| && i < height <= |prev| && height == |m.nodes[x].next|
      && prev[i] < |m.nodes| && i < |m.nodes[prev[i]].next|
  }

  /** One iteration of the search loop that fills in `prev`. */
  function SearchStep(m: Memory, w: Writer): Writer
    requires w.Searching? && WriterInRange(m, w)
  {
    var next := m.nodes[w.x].next[w.level];
    if KeyIsAfter(m.nodes, Some(w.key), next) then
      Searching(w.key, w.level, next.value, w.prev)
    else
      var prev := w.prev[w.level := w.x];
      if w.level == 0 then Found(w.key, prev) else Searching(w.key, w.level - 1, w.x, prev)
  }

  ghost predicate StartInsert(s: State, s': State) {
    && s.writer.Idle? && s'.writer.Searching? && s' == s.(writer := s'.writer)
    && s'.writer.key !in Keys(s.m, s.c)
    && s'.writer.level == s.m.maxHeight - 1 && s'.writer.x == HEAD && |s'.writer.prev| == MAX_HEIGHT
  }

  ghost predicate SearchLoad(s: State, s': State) {
    s.writer.Searching? && WriterInRange(s.m, s.writer) && s' == s.(writer := SearchStep(s.m, s.writer))
  }

  /** The new height is stored if it grew, and the node is allocated with its links unset. */
  ghost predicate Allocate(s: State, s': State) {
    && s.writer.Found? && |s.writer.prev| == MAX_HEIGHT
    && s'.writer.Linking? && s' == s.(m := s'.m, writer := s'.writer)
    && var w := s'.writer;
    && w.key == s.writer.key && w.x == |s.m.nodes| && w.i == 0 && !w.copied && 1 <= w.height <= MAX_HEIGHT
    && w.prev == seq(MAX_HEIGHT,
                     l requires 0 <= l < MAX_HEIGHT => if s.m.maxHeight <= l < w.height then HEAD else s.writer.prev[l])
    && |s'.m.nodes| == |s.m.nodes| + 1 && s'.m.nodes[..|s.m.nodes|] == s.m.nodes
    && s'.m.nodes[w.x].key == w.key && |s'.m.nodes[w.x].next| == w.height
    && s'.m.maxHeight == if w.height > s.m.maxHeight then w.height else s.m.maxHeight
  }

  ghost predicate CopyLink(s: State, s': State) {
    && s.writer.Linking? && WriterInRange(s.m, s.writer) && !s.writer.copied
    && var w := s.writer;
    s' == s.(m := SetNext(s.m, w.x, w.i, s.m.nodes[w.prev[w.i]].next[w.i]), writer := w.(copied := true))
  }

  /** The release store that makes the new node reachable at level i. */
  ghost predicate PublishLink(s: State, s': State) {
    && s.writer.Linking? && WriterInRange(s.m, s.writer) && s.writer.copied
    && var w := s.writer;
    && s' == s.(m := SetNext(s.m, w.prev[w.i], w.i, Some(w.x)), c := s'.c,
                writer := if w.i + 1 == w.height then Idle else w.(i := w.i + 1, copied := false))
    // the chains are those the new links spell
    && |s'.c| == MAX_HEIGHT && (forall l :: 0 <= l < MAX_HEIGHT ==> Spells(s'.m.nodes, l, s'.c[l]))
  }

  ghost predicate WriterStep(s: State, s': State) {
    StartInsert(s, s') || SearchLoad(s, s') || Allocate(s, s') || CopyLink(s, s') || PublishLink(s, s')
  }

  // ---------- the readers ----------

  ghost predicate StartSearch(s: State, s': State) {
    exists bound: Bound, level: nat :: level < MAX_HEIGHT
      && s' == s.(readers := s.readers + [Reading(bound, level, HEAD, Keys(s.m, s.c))])
  }

  function ReadStep(m: Memory, r: Reader): Reader
    requires r.Reading? && r.x < |m.nodes| && r.level < |m.nodes[r.x].next|
  {
    var next := m.nodes[r.x].next[r.level];
    if KeyIsAfter(m.nodes, r.bound, next) then
      Reading(r.bound, r.level, next.value, r.started)
    else if r.level == 0 then
      Done(r.bound, r.x, next, r.started)
    else
      Reading(r.bound, r.level - 1, r.x, r.started)
  }

  ghost predicate SearchRead(s: State, s': State, i: nat) {
    && i < |s.readers| && s.readers[i].Reading?
    && var r := s.readers[i];
    && r.x < |s.m.nodes| && r.level < |s.m.nodes[r.x].next|
    && s' == s.(readers := s.readers[i := ReadStep(s.m, r)])
  }

  ghost predicate Next(s: State, s': State) {
    WriterStep(s, s') || StartSearch(s, s') || exists i: nat :: SearchRead(s, s', i)
  }

  ghost predicate Init(s: State) {
    && s.m.maxHeight == 1 && |s.m.nodes| == 1 && s.m.nodes[0].next == seq(MAX_HEIGHT, _ => None)
    && s.c == seq(MAX_HEIGHT, _ => [HEAD]) && s.writer == Idle && s.readers == []
  }

  // ---------- the invariant ----------

  ghost predicate TopIsEmpty(m: Memory, c: Chains) {
    |c| == MAX_HEIGHT && forall l :: m.maxHeight <= l < MAX_HEIGHT ==> c[l] == [HEAD]
  }

  ghost predicate PrevOk(m: Memory, c: Chains, key: Key, prev: seq<NodeId>, from: nat, to: nat) {
    |prev| == MAX_HEIGHT && to <= MAX_HEIGHT
    && forall l :: from <= l < to ==> LastBefore(m, c, l, prev[l], Some(key)) && KeyFree(m, c, l, key)
  }

  ghost predicate WriterOk(m: Memory, c: Chains, w: Writer) {
    match w
    case Idle => true
    case Searching(key, level, x, prev) =>
      && KeyFree(m, c, 0, key) && level < m.maxHeight <= |c| && x in c[level] && Before(m.nodes, x, Some(key))
      && PrevOk(m, c, key, prev, level + 1, m.maxHeight)
    case Found(key, prev) => KeyFree(m, c, 0, key) && PrevOk(m, c, key, prev, 0, m.maxHeight)
    case Linking(key, height, i, prev, x, copied) =>
      && i < height <= m.maxHeight && PrevOk(m, c, key, prev, i, height)
      && x < |m.nodes| && x != HEAD && m.nodes[x].key == key && |m.nodes[x].next| == height && |c| == MAX_HEIGHT
      && (forall l :: 0 <= l < MAX_HEIGHT ==> (x in c[l] <==> l < i))
      && (copied ==> prev[i] < |m.nodes| && i < |m.nodes[prev[i]].next|
                     && m.nodes[x].next[i] == m.nodes[prev[i]].next[i])
  }

  ghost predicate ReaderOk(m: Memory, c: Chains, r: Reader) {
    match r
    case Reading(bound, level, x, started) =>
      level < |c| && x in c[level] && Before(m.nodes, x, bound) && started <= Keys(m, c)
    case Done(bound, x, next, started) =>
      && 0 < |c| && x in c[0] && Before(m.nodes, x, bound) && !KeyIsAfter(m.nodes, bound, next)
      && (next.Some? ==> next.value in c[0] && next.value != HEAD && next.value < |m.nodes|)
      && Adjacent(m.nodes, x, next, started)
  }

  ghost predicate Inv(s: State) {
    && Good(s.m, s.c) && TopIsEmpty(s.m, s.c) && WriterOk(s.m, s.c, s.writer)
    && (forall i :: 0 <= i < |s.readers| ==> ReaderOk(s.m, s.c, s.readers[i]))
  }

  // ---------- readers are undisturbed ----------

  lemma ReaderKeeps(m: Memory, c: Chains, r: Reader, m': Memory, c': Chains)
    requires Good(m, c) && Grows(m, c, m', c') && ReaderOk(m, c, r)
    ensures ReaderOk(m', c', r)
  {
    GrowsKeys(m, c, m', c');
  }

  lemma ReadKeeps(m: Memory, c: Chains, r: Reader)
    requires Good(m, c) && ReaderOk(m, c, r) && r.Reading?
    ensures r.x < |m.nodes| && r.level < |m.nodes[r.x].next| && ReaderOk(m, c, ReadStep(m, r))
  {
    hide Spells, KeysOf;
    NextOnChain(m, c, r.level, r.x);
    if r.level == 0 {
      LinkIsAdjacent(m, c, r.x);
    } else {
      assert SubChain(c[r.level], c[r.level - 1]);
    }
  }

  // ---------- the writer's steps ----------

  lemma SearchKeeps(m: Memory, c: Chains, w: Writer)
    requires Good(m, c) && TopIsEmpty(m, c) && WriterOk(m, c, w) && w.Searching?
    ensures WriterInRange(m, w) && WriterOk(m, c, SearchStep(m, w))
  {
    hide Spells, KeysOf;
    NextOnChain(m, c, w.level, w.x);
    if !KeyIsAfter(m.nodes, Some(w.key), m.nodes[w.x].next[w.level]) {
      KeyFreeAbove(m, c, w.level, w.key);
      if w.level > 0 {
        assert SubChain(c[w.level], c[w.level - 1]);
      }
    }
  }

  /** Each level holds only nodes of the level below. */
  lemma KeyFreeAbove(m: Memory, c: Chains, level: nat, key: Key)
    requires Good(m, c) && KeyFree(m, c, 0, key) && level < MAX_HEIGHT
    ensures KeyFree(m, c, level, key)
  {
    if level > 0 {
      assert SubChain(c[level], c[0]);
    }
  }

  /** The nodes in memory keep their keys, and those on `level` keep their link there. */
  ghost predicate LevelKept(m: Memory, c: Chains, m': Memory, level: nat) {
    && |m.nodes| <= |m'.nodes| && (forall n :: 0 <= n < |m.nodes| ==> m'.nodes[n].key == m.nodes[n].key)
    && level < |c|
    && forall n :: n in c[level] && n < |m.nodes| && level < |m.nodes[n].next| ==>
         level < |m'.nodes[n].next| && m'.nodes[n].next[level] == m.nodes[n].next[level]
  }

  lemma PlaceKept(m: Memory, c: Chains, level: nat, p: NodeId, key: Key, m': Memory, c': Chains)
    requires Good(m, c) && level < MAX_HEIGHT && LastBefore(m, c, level, p, Some(key)) && KeyFree(m, c, level, key)
    requires LevelKept(m, c, m', level) && level < |c'| && c'[level] == c[level]
    ensures LastBefore(m', c', level, p, Some(key)) && KeyFree(m', c', level, key)
  {
    NextOnChain(m, c, level, p);
    forall n | n in c[level] && n != HEAD && n < |m'.nodes| ensures m'.nodes[n].key != key {
      NextOnChain(m, c, level, n);
    }
  }

  /** With nothing on the levels above the maximum height, the head is the last node before any key. */
  lemma PlacesForHeight(s: State, s': State)
    requires Inv(s) && Allocate(s, s')
    ensures PrevOk(s.m, s.c, s'.writer.key, s'.writer.prev, 0, s'.writer.height)
  {
    var m, c, w := s.m, s.c, s'.writer;
    forall l | 0 <= l < w.height ensures LastBefore(m, c, l, w.prev[l], Some(w.key)) && KeyFree(m, c, l, w.key) {
      KeyFreeAbove(m, c, l, w.key);
      if m.maxHeight <= l {
        assert Spells(m.nodes, l, c[l]);
        assert c[l] == [HEAD] && m.nodes[HEAD].next[l] == After(c[l], 0);
      } else {
        assert LastBefore(m, c, l, w.prev[l], Some(w.key));
      }
    }
  }

  lemma SpellsMore(nodes: seq<Node>, level: nat, chain: seq<NodeId>, nodes': seq<Node>)
    requires Spells(nodes, level, chain) && |nodes| <= |nodes'|
    requires forall n :: 0 <= n < |nodes| ==> nodes'[n] == nodes[n]
    ensures Spells(nodes', level, chain) && forall n :: n in chain ==> n < |nodes|
  {
  }

  lemma AllocationIsPrivate(s: State, s': State)
    requires Inv(s) && Allocate(s, s')
    ensures Good(s'.m, s'.c) && Grows(s.m, s.c, s'.m, s'.c) && Keys(s'.m, s'.c) == Keys(s.m, s.c)
    ensures forall l :: 0 <= l < MAX_HEIGHT ==> LevelKept(s.m, s.c, s'.m, l) && s'.writer.x !in s.c[l]
  {
    var m, c, m', w := s.m, s.c, s'.m, s'.writer;
    forall n | 0 <= n < |m.nodes| ensures m'.nodes[n] == m.nodes[n] {
      assert m'.nodes[n] == m'.nodes[..|m.nodes|][n];
    }
    forall l | 0 <= l < MAX_HEIGHT ensures Spells(m'.nodes, l, c[l]) && w.x !in c[l] {
      SpellsMore(m.nodes, l, c[l], m'.nodes);
    }
    SpellsMore(m.nodes, 0, c[0], m'.nodes);
    SameKeys(m.nodes, c[0], m'.nodes);
  }

  lemma AllocateKeeps(s: State, s': State)
    requires Inv(s) && Allocate(s, s')
    ensures Good(s'.m, s'.c) && TopIsEmpty(s'.m, s'.c) && Grows(s.m, s.c, s'.m, s'.c) && WriterOk(s'.m, s'.c, s'.writer)
    ensures Keys(s'.m, s'.c) == Keys(s.m, s.c)
  {
    AllocationIsPrivate(s, s');
    PlacesForHeight(s, s');
    var w := s'.writer;
    forall l | 0 <= l < w.height
      ensures LastBefore(s'.m, s'.c, l, w.prev[l], Some(w.key)) && KeyFree(s'.m, s'.c, l, w.key)
    {
      PlaceKept(s.m, s.c, l, w.prev[l], w.key, s'.m, s'.c);
    }
  }

  lemma CopyKeeps(s: State, s': State)
    requires Inv(s) && CopyLink(s, s')
    ensures Good(s'.m, s'.c) && TopIsEmpty(s'.m, s'.c) && Grows(s.m, s.c, s'.m, s'.c) && WriterOk(s'.m, s'.c, s'.writer)
    ensures Keys(s'.m, s'.c) == Keys(s.m, s.c)
  {
    var m, c, w := s.m, s.c, s.writer;
    PrivateStore(m, c, w.x, w.i, m.nodes[w.prev[w.i]].next[w.i], s'.m);
    forall l | w.i <= l < w.height
      ensures LastBefore(s'.m, c, l, w.prev[l], Some(w.key)) && KeyFree(s'.m, c, l, w.key)
    {
      assert w.x !in c[l];
      PlaceKept(m, c, l, w.prev[l], w.key, s'.m, c);
    }
    assert w.prev[w.i] in c[w.i] && w.prev[w.i] != w.x;
  }

  /** The links determine the chain. */
  lemma SpellsUnique(nodes: seq<Node>, level: nat, a: seq<NodeId>, b: seq<NodeId>)
    requires Spells(nodes, level, a) && Spells(nodes, level, b)
    ensures a == b
  {
    var i := 1;
    while i < |a|
      invariant 1 <= i <= |a| && i <= |b| && a[..i] == b[..i]
    {
      assert a[i - 1] == a[..i][i - 1] == b[i - 1] && After(a, i - 1) == After(b, i - 1);
      assert a[..i + 1] == a[..i] + [a[i]] && b[..i + 1] == b[..i] + [b[i]];
      i := i + 1;
    }
    assert a[i - 1] == a[..i][i - 1] == b[i - 1] && After(a, i - 1) == After(b, i - 1);
    assert a == a[..i] && b == b[..i];
  }

  lemma ChainsUnique(nodes: seq<Node>, a: Chains, b: Chains)
    requires |a| == |b| == MAX_HEIGHT
    requires forall l :: 0 <= l < MAX_HEIGHT ==> Spells(nodes, l, a[l])
    requires forall l :: 0 <= l < MAX_HEIGHT ==> Spells(nodes, l, b[l])
    ensures a == b
  {
    forall l | 0 <= l < MAX_HEIGHT ensures a[l] == b[l] {
      SpellsUnique(nodes, l, a[l], b[l]);
    }
  }

  lemma PublishKeeps(s: State, s': State)
    requires Inv(s) && PublishLink(s, s')
    ensures Good(s'.m, s'.c) && TopIsEmpty(s'.m, s'.c) && Grows(s.m, s.c, s'.m, s'.c) && WriterOk(s'.m, s'.c, s'.writer)
    ensures Keys(s'.m, s'.c) == Keys(s.m, s.c) + if s.writer.i == 0 then {s.writer.key} else {}
  {
    var w := s.writer;
    assert LastBefore(s.m, s.c, w.i, w.prev[w.i], Some(w.key));
    var c' := Publish(s.m, s.c, w.i, w.prev[w.i], w.x);
    assert s'.c == c' by { ChainsUnique(s'.m.nodes, s'.c, c'); }
    WriterMovesUp(s.m, s.c, w, s'.m, c', s'.writer);
  }

  lemma WriterMovesUp(m: Memory, c: Chains, w: Writer, m': Memory, c': Chains, w': Writer)
    requires Good(m, c) && w.Linking? && WriterOk(m, c, w) && WriterInRange(m, w)
    requires m' == SetNext(m, w.prev[w.i], w.i, Some(w.x)) && |c'| == |c|
    requires w' == if w.i + 1 == w.height then Idle else w.(i := w.i + 1, copied := false)
    requires forall l :: 0 <= l < MAX_HEIGHT && l != w.i ==> c'[l] == c[l]
    requires w.x in c'[w.i]
    ensures WriterOk(m', c', w')
  {
    LaterPlacesKept(m, c, w, m', c');
    assert w.prev[w.i] in c[w.i] && w.prev[w.i] != w.x;
  }

  lemma LaterPlacesKept(m: Memory, c: Chains, w: Writer, m': Memory, c': Chains)
    requires Good(m, c) && w.Linking? && WriterOk(m, c, w) && WriterInRange(m, w)
    requires m' == SetNext(m, w.prev[w.i], w.i, Some(w.x)) && |c'| == |c|
    requires forall l :: 0 <= l < MAX_HEIGHT && l != w.i ==> c'[l] == c[l]
    ensures PrevOk(m', c', w.key, w.prev, w.i + 1, w.height)
  {
    forall l | w.i + 1 <= l < w.height
      ensures LastBefore(m', c', l, w.prev[l], Some(w.key)) && KeyFree(m', c', l, w.key)
    {
      PlaceKept(m, c, l, w.prev[l], w.key, m', c');
    }
  }

  lemma WriterKeeps(s: State, s': State)
    requires Inv(s) && WriterStep(s, s')
    ensures Good(s'.m, s'.c) && TopIsEmpty(s'.m, s'.c) && Grows(s.m, s.c, s'.m, s'.c) && WriterOk(s'.m, s'.c, s'.writer)
    ensures s'.readers == s.readers
  {
    if StartInsert(s, s') {
      assert Spells(s.m.nodes, s'.writer.level, s.c[s'.writer.level]);
    } else if SearchLoad(s, s') {
      SearchKeeps(s.m, s.c, s.writer);
    } else if Allocate(s, s') {
      AllocateKeeps(s, s');
    } else if CopyLink(s, s') {
      CopyKeeps(s, s');
    } else {
      PublishKeeps(s, s');
    }
  }

  lemma WriterKeepsAll(s: State, s': State)
    requires Inv(s) && WriterStep(s, s')
    ensures Inv(s') && Grows(s.m, s.c, s'.m, s'.c)
  {
    WriterKeeps(s, s');
    forall i | 0 <= i < |s'.readers| ensures ReaderOk(s'.m, s'.c, s'.readers[i]) {
      ReaderKeeps(s.m, s.c, s.readers[i], s'.m, s'.c);
    }
  }

  lemma ReadKeepsAll(s: State, s': State, i: nat)
    requires Inv(s) && SearchRead(s, s', i)
    ensures Inv(s') && Grows(s.m, s.c, s'.m, s'.c)
  {
    ReadKeeps(s.m, s.c, s.readers[i]);
  }

  lemma StartKeeps(s: State, s': State)
    requires Inv(s) && StartSearch(s, s')
    ensures Inv(s') && Grows(s.m, s.c, s'.m, s'.c)
  {
    var r := s'.readers[|s.readers|];
    assert Spells(s.m.nodes, r.level, s.c[r.level]);
    forall i | 0 <= i < |s'.readers| ensures ReaderOk(s'.m, s'.c, s'.readers[i]) {
      if i < |s.readers| { assert s'.readers[i] == s.readers[i]; }
    }
  }

  /** Every atomic step keeps every level sorted, a sub-chain of the level below, and every search right. */
  lemma StepKeeps(s: State, s': State)
    requires Inv(s) && Next(s, s')
    ensures Inv(s') && Grows(s.m, s.c, s'.m, s'.c)
  {
    if WriterStep(s, s') {
      WriterKeepsAll(s, s');
    } else if StartSearch(s, s') {
      StartKeeps(s, s');
    } else {
      var i: nat :| SearchRead(s, s', i);
      ReadKeepsAll(s, s', i);
    }
  }

  // ---------- whole runs ----------

  ghost predicate Run(states: seq<State>) {
    && states != [] && Init(states[0])
    && forall i :: 0 <= i < |states| - 1 ==> Next(states[i], states[i + 1])
  }

  lemma InitHolds(s: State)
    requires Init(s)
    ensures Inv(s)
  {
    assert s.m.nodes[0].next[0] == None;
  }

  lemma {:induction false} InvariantOverRuns(states: seq<State>, i: nat)
    requires Run(states) && i < |states|
    ensures Inv(states[i])
  {
    if i == 0 {
      InitHolds(states[0]);
    } else {
      InvariantOverRuns(states, i - 1);
      assert Next(states[i - 1], states[i - 1 + 1]);
      StepKeeps(states[i - 1], states[i - 1 + 1]);
    }
  }

  /** Keys are never lost, so what a search must not miss is all of what had been inserted when it began. */
  lemma {:induction false} KeysOnlyGrow(states: seq<State>, i: nat, j: nat)
    requires Run(states) && i <= j < |states|
    ensures Keys(states[i].m, states[i].c) <= Keys(states[j].m, states[j].c)
    decreases j - i
  {
    if i < j {
      InvariantOverRuns(states, i);
      assert Next(states[i], states[i + 1]);
      StepKeeps(states[i], states[i + 1]);
      GrowsKeys(states[i].m, states[i].c, states[i + 1].m, states[i + 1].c);
      KeysOnlyGrow(states, i + 1, j);
    }
  }

  /**
   A finished FindGreaterOrEqual(key), however many inserts it was interleaved with, returns
   a node of the list at or after `key`, and no key present when it began lies before that node
   and at or after `key`; if it returns null, no such key was present at all.
   */
  lemma SeekIsRight(states: seq<State>, i: nat, r: nat)
    requires Run(states) && i < |states| && r < |states[i].readers|
    requires states[i].readers[r].Done? && states[i].readers[r].bound.Some?
    ensures var d, m := states[i].readers[r], states[i].m;
            && (d.next.Some? ==> d.next.value < |m.nodes| && m.nodes[d.next.value].key in Keys(m, states[i].c)
                                 && d.bound.value <= m.nodes[d.next.value].key)
            && (forall k :: k in d.started && d.bound.value <= k ==> d.next.Some? && m.nodes[d.next.value].key <= k)
  {
    InvariantOverRuns(states, i);
    assert ReaderOk(states[i].m, states[i].c, states[i].readers[r]);
  }

  /** FindLessThan(key), and FindLast when the bound is the end of the list. */
  lemma SeekBackIsRight(states: seq<State>, i: nat, r: nat)
    requires Run(states) && i < |states| && r < |states[i].readers| && states[i].readers[r].Done?
    ensures var d, m := states[i].readers[r], states[i].m;
            && d.x < |m.nodes|
            && (d.x != HEAD ==> m.nodes[d.x].key in Keys(m, states[i].c)
                                && (d.bound.Some? ==> m.nodes[d.x].key < d.bound.value))
            && (forall k :: k in d.started && (d.bound.Some? ==> k < d.bound.value) ==>
                  d.x != HEAD && k <= m.nodes[d.x].key)
  {
    InvariantOverRuns(states, i);
    assert ReaderOk(states[i].m, states[i].c, states[i].readers[r]);
  }

  /** When Insert returns, its key is in the list. */
  lemma InsertCompletes(s: State, s': State)
    requires Inv(s) && Next(s, s') && s.writer.Linking? && s'.writer.Idle?
    ensures s.writer.key in Keys(s'.m, s'.c)
  {
    PublishKeeps(s, s');
    if s.writer.i > 0 {
      assert s.writer.x in s.c[0];
      GrowsKeys(s.m, s.c, s'.m, s'.c);
    }
  }
}
