/**
 Concurrent writers (db/db_impl.cc, Write, BuildBatchGroup, MakeRoomForWrite). Writers
 queue up; the one at the front logs and inserts a group of batches with the lock
 released, then publishes the new last sequence number. Every step below is one
 stretch under the lock or one action of the unlocked phase. No I/O errors.
 */
module GroupCommit {
  import opened Wrappers
  import opened Keys
  import opened Mvcc

  /** `byteSize` is the size of the batch's representation. */
  datatype Batch = Batch(writes: History, byteSize: nat)

  /** A call's batch is absent when it only asks for the memtable to be compacted. */
  datatype Call = Call(batch: Option<Batch>, sync: bool, phase: Phase)

  datatype Phase =
    | Waiting
    | MakingRoom(force: bool)
    // the unlocked phase, for the calls up to `upto`
    | Logging(upto: nat)
    | Syncing(upto: nat)
    | Inserting(upto: nat, done: nat)
    | Returned

  /** A log record, with the range of calls whose batches it holds. */
  datatype Record = Record(seqno: nat, writes: History, synced: bool, from: nat, upto: nat)

  datatype State = State(
    calls: seq<Call>,
    queue: seq<nat>,
    lastSequence: nat,
    log: seq<Record>,
    mem: seq<Entry>,
    imm: Option<seq<Entry>>,
    flushed: seq<Entry>)

  // ---------- building a group ----------

  function WritesOf(c: Call): History { if c.batch.Some? then c.batch.value.writes else [] }

  /** All writes of the first `n` calls, in the order they were made. */
  function Concat(calls: seq<Call>, n: nat): History
    requires n <= |calls|
  {
    if n == 0 then [] else Concat(calls, n - 1) + WritesOf(calls[n - 1])
  }

  function SizeOf(c: Call): nat { if c.batch.Some? then c.batch.value.byteSize else 0 }

  function GroupSize(calls: seq<Call>, from: nat, upto: nat): nat
    requires from <= upto <= |calls|
  {
    if from == upto then 0 else GroupSize(calls, from, upto - 1) + SizeOf(calls[upto - 1])
  }

  function GroupWrites(calls: seq<Call>, from: nat, upto: nat): History
    requires from <= upto <= |calls|
  {
    if from == upto then [] else GroupWrites(calls, from, upto - 1) + WritesOf(calls[upto - 1])
  }

  lemma {:induction false} GroupConcat(calls: seq<Call>, from: nat, upto: nat)
    requires from <= upto <= |calls|
    ensures Concat(calls, upto) == Concat(calls, from) + GroupWrites(calls, from, upto)
  {
    if from < upto {
      GroupConcat(calls, from, upto - 1);
    }
  }

  const SMALL: nat := 128 * 1024

  /** A small first write keeps its group small. */
  function MaxSize(first: nat): nat {
    if first <= SMALL then first + SMALL else 0x100000
  }

  /** The call at `k` cannot join the group led by the one at `from`. */
  predicate Stops(calls: seq<Call>, from: nat, k: nat)
    requires from < k < |calls|
  {
    || (calls[k].sync && !calls[from].sync)
    || (calls[k].batch.Some? && GroupSize(calls, from, k + 1) > MaxSize(SizeOf(calls[from])))
  }

  /** The group led by `from` is all calls up to the first that cannot join. */
  predicate IsGroup(calls: seq<Call>, from: nat, upto: nat) {
    && from < upto <= |calls|
    && (forall k :: from < k < upto ==> !Stops(calls, from, k))
    && (upto < |calls| ==> Stops(calls, from, upto))
  }

  /** Scans the queue, whose front is call `from`, and appends the batches of the group. */
  method BuildBatchGroup(calls: seq<Call>, from: nat) returns (upto: nat, updates: History)
    requires from < |calls| && calls[from].batch.Some?
    ensures IsGroup(calls, from, upto)
    ensures updates == GroupWrites(calls, from, upto)
  {
    updates := calls[from].batch.value.writes;
    var size := calls[from].batch.value.byteSize;
    var maxSize := 0x100000;
    if size <= SMALL {
      maxSize := size + SMALL;
    }
    upto := from + 1;
    assert GroupWrites(calls, from, from) == [] && GroupSize(calls, from, from) == 0;
    while upto < |calls|
      invariant from < upto <= |calls| && size == GroupSize(calls, from, upto)
      invariant forall k :: from < k < upto ==> !Stops(calls, from, k)
      invariant updates == GroupWrites(calls, from, upto)
    {
      var w := calls[upto];
      if w.sync && !calls[from].sync {
        break;
      }
      if w.batch.Some? {
        size := size + w.batch.value.byteSize;
        if size > maxSize {
          break;
        }
        updates := updates + w.batch.value.writes;
      }
      upto := upto + 1;
    }
  }

  // ---------- the steps ----------

  /** The call at the front of the queue. */
  function Front(s: State): nat
    requires s.queue != []
  {
    s.queue[0]
  }

  function SetPhase(calls: seq<Call>, i: nat, p: Phase): seq<Call>
    requires i < |calls|
  {
    calls[i := calls[i].(phase := p)]
  }

  predicate FrontIs(s: State) { s.queue != [] && s.queue[0] < |s.calls| }

  /** A new call joins the back of the queue, whatever the others are doing. */
  ghost predicate Enqueue(s: State, s': State) {
    exists batch: Option<Batch>, sync: bool ::
      s' == s.(calls := s.calls + [Call(batch, sync, Waiting)], queue := s.queue + [|s.calls|])
  }

  /** Waking up at the front, not done yet. */
  ghost predicate Lead(s: State, s': State) {
    && FrontIs(s) && s.calls[Front(s)].phase.Waiting?
    && s' == s.(calls := SetPhase(s.calls, Front(s), MakingRoom(s.calls[Front(s)].batch.None?)))
  }

  /** MakeRoomForWrite replaces the full memtable; waiting and delaying there change nothing. */
  ghost predicate SwitchMemtable(s: State, s': State) {
    && FrontIs(s) && s.calls[Front(s)].phase.MakingRoom? && s.imm.None?
    && s' == s.(calls := SetPhase(s.calls, Front(s), MakingRoom(false)), imm := Some(s.mem), mem := [])
  }

  /** There is room: build the group, number it and release the lock. */
  ghost predicate StartGroup(s: State, s': State) {
    && FrontIs(s) && s.calls[Front(s)].phase == MakingRoom(false) && s.calls[Front(s)].batch.Some?
    && exists upto: nat :: IsGroup(s.calls, Front(s), upto)
                           && s' == s.(calls := SetPhase(s.calls, Front(s), Logging(upto)))
  }

  ghost predicate AddLogRecord(s: State, s': State) {
    && FrontIs(s) && s.calls[Front(s)].phase.Logging?
    && var i, upto := Front(s), s.calls[Front(s)].phase.upto;
    && i <= upto <= |s.calls|
    && s' == s.(
         log := s.log + [Record(s.lastSequence + 1, GroupWrites(s.calls, i, upto), false, i, upto)],
         calls := SetPhase(s.calls, i, if s.calls[i].sync then Syncing(upto) else Inserting(upto, 0)))
  }

  ghost predicate SyncLog(s: State, s': State) {
    && FrontIs(s) && s.calls[Front(s)].phase.Syncing? && s.log != []
    && s' == s.(
         log := s.log[|s.log| - 1 := s.log[|s.log| - 1].(synced := true)],
         calls := SetPhase(s.calls, Front(s), Inserting(s.calls[Front(s)].phase.upto, 0)))
  }

  /** The inserter adds one write of the last record to the memtable and counts up. */
  ghost predicate InsertOne(s: State, s': State) {
    && FrontIs(s) && s.calls[Front(s)].phase.Inserting? && s.log != []
    && var p, r := s.calls[Front(s)].phase, s.log[|s.log| - 1];
    && p.done < |r.writes|
    && s' == s.(
         mem := s.mem + [Entry(r.writes[p.done].key, r.seqno + p.done, r.writes[p.done].op)],
         calls := SetPhase(s.calls, Front(s), Inserting(p.upto, p.done + 1)))
  }

  function Return(calls: seq<Call>, from: nat, upto: nat): seq<Call>
    requires from <= upto <= |calls|
  {
    seq(|calls|, i requires 0 <= i < |calls| => if from <= i < upto then calls[i].(phase := Returned) else calls[i])
  }

  /** With the lock again: publish the sequence numbers and complete the whole group. */
  ghost predicate Finish(s: State, s': State) {
    && FrontIs(s) && s.calls[Front(s)].phase.Inserting? && s.log != []
    && var i, p, r := Front(s), s.calls[Front(s)].phase, s.log[|s.log| - 1];
    && p.done == |r.writes| && i <= p.upto <= |s.calls| && p.upto - i <= |s.queue|
    && s' == s.(lastSequence := s.lastSequence + |r.writes|, queue := s.queue[p.upto - i..],
                calls := Return(s.calls, i, p.upto))
  }

  /** A call without a batch completes alone once there is room. */
  ghost predicate FinishEmpty(s: State, s': State) {
    && FrontIs(s) && s.calls[Front(s)].phase == MakingRoom(false) && s.calls[Front(s)].batch.None?
    && s' == s.(queue := s.queue[1..], calls := Return(s.calls, Front(s), Front(s) + 1))
  }

  /** The background thread writes out the immutable memtable. */
  ghost predicate Flush(s: State, s': State) {
    s.imm.Some? && s' == s.(imm := None, flushed := s.flushed + s.imm.value)
  }

  ghost predicate Next(s: State, s': State) {
    || Enqueue(s, s') || Lead(s, s') || SwitchMemtable(s, s') || StartGroup(s, s') || AddLogRecord(s, s')
    || SyncLog(s, s') || InsertOne(s, s') || Finish(s, s') || FinishEmpty(s, s') || Flush(s, s')
  }

  ghost predicate Init(s: State) {
    s == State([], [], 0, [], [], None, [])
  }

  // ---------- the invariant ----------

  /** Calls before this one have returned. */
  function Head(s: State): int { |s.calls| - |s.queue| }

  /** Calls before this one are in the log. */
  function Logged(s: State): int {
    if !FrontIs(s) then Head(s) else
    match s.calls[Front(s)].phase
    case Syncing(upto) => upto
    case Inserting(upto, _) => upto
    case _ => Head(s)
  }

  function Inserted(s: State): nat {
    if FrontIs(s) && s.calls[Front(s)].phase.Inserting? then s.calls[Front(s)].phase.done else 0
  }

  function Store(s: State): seq<Entry> {
    s.flushed + (if s.imm.Some? then s.imm.value else []) + s.mem
  }

  /** The first `n` writes of the history as stored versions, numbered from one. */
  function Versions(h: History, n: nat): seq<Entry>
    requires n <= |h|
  {
    seq(n, i requires 0 <= i < n => Entry(h[i].key, i + 1, h[i].op))
  }

  ghost predicate QueueOk(s: State) {
    && 0 <= Head(s)
    && (forall i :: 0 <= i < |s.queue| ==> s.queue[i] == Head(s) + i)
    && (forall i :: 0 <= i < |s.calls| ==> (s.calls[i].phase.Returned? <==> i < Head(s)))
    && (forall i :: Head(s) < i < |s.calls| ==> s.calls[i].phase.Waiting?)
  }

  predicate UnlockedPhase(p: Phase) { p.Logging? || p.Syncing? || p.Inserting? }

  ghost predicate LeaderOk(s: State) {
    FrontIs(s) ==>
      var c := s.calls[Front(s)];
      && (UnlockedPhase(c.phase) ==> c.batch.Some? && Front(s) < c.phase.upto <= |s.calls|
                                     && forall k :: Front(s) < k < c.phase.upto ==> !Stops(s.calls, Front(s), k))
      && (c.phase.Syncing? || c.phase.Inserting? ==>
            && s.log != []
            && var r := s.log[|s.log| - 1];
               r.from == Front(s) && r.upto == c.phase.upto && r.seqno == s.lastSequence + 1
               && r.writes == GroupWrites(s.calls, Front(s), c.phase.upto)
               && (c.phase.Inserting? ==> c.phase.done <= |r.writes| && (c.sync ==> r.synced)))
  }

  /** The records' ranges of calls follow one another; calls between two ranges had no batch. */
  ghost predicate LogOk(calls: seq<Call>, log: seq<Record>, logged: nat) {
    && logged <= |calls|
    && (forall r :: 0 <= r < |log| ==> RecordOk(calls, log[r]) && log[r].upto <= logged)
    && (forall q, r :: 0 <= q < r < |log| ==> log[q].upto <= log[r].from)
    && (forall i :: 0 <= i < logged && calls[i].batch.Some? ==>
          exists r :: 0 <= r < |log| && log[r].from <= i < log[r].upto)
  }

  ghost predicate RecordOk(calls: seq<Call>, r: Record) {
    && r.from < r.upto <= |calls|
    && r.writes == GroupWrites(calls, r.from, r.upto)
    && r.seqno == |Concat(calls, r.from)| + 1
    && (forall k :: r.from < k < r.upto ==> !Stops(calls, r.from, k))
  }

  /** Returned calls that asked for it are in a synced record. */
  ghost predicate SyncOk(s: State) {
    forall r ::
      0 <= r < |s.log| && s.log[r].upto <= Head(s) && s.log[r].from < |s.calls| && s.calls[s.log[r].from].sync ==>
        s.log[r].synced
  }

  ghost predicate StoreOk(s: State) {
    && 0 <= Head(s) <= Logged(s) <= |s.calls|
    && s.lastSequence == |Concat(s.calls, Head(s))|
    && s.lastSequence + Inserted(s) <= |Concat(s.calls, Logged(s))|
    && Store(s) == Versions(Concat(s.calls, Logged(s)), s.lastSequence + Inserted(s))
  }

  ghost predicate Inv(s: State) {
    QueueOk(s) && LeaderOk(s) && 0 <= Logged(s) && LogOk(s.calls, s.log, Logged(s)) && SyncOk(s) && StoreOk(s)
  }

  // ---------- phases and returns leave the batches alone ----------

  ghost predicate SameCalls(calls: seq<Call>, calls': seq<Call>) {
    |calls| <= |calls'| && forall i :: 0 <= i < |calls| ==>
      calls'[i].batch == calls[i].batch && calls'[i].sync == calls[i].sync
  }

  lemma {:induction false} SameConcat(calls: seq<Call>, calls': seq<Call>, n: nat)
    requires SameCalls(calls, calls') && n <= |calls|
    ensures Concat(calls', n) == Concat(calls, n)
  {
    if n > 0 {
      SameConcat(calls, calls', n - 1);
    }
  }

  lemma {:induction false} SameGroup(calls: seq<Call>, calls': seq<Call>, from: nat, upto: nat)
    requires SameCalls(calls, calls') && from <= upto <= |calls|
    ensures GroupWrites(calls', from, upto) == GroupWrites(calls, from, upto)
    ensures GroupSize(calls', from, upto) == GroupSize(calls, from, upto)
  {
    if from < upto {
      SameGroup(calls, calls', from, upto - 1);
    }
  }

  lemma SameStops(calls: seq<Call>, calls': seq<Call>, from: nat, k: nat)
    requires SameCalls(calls, calls') && from < k < |calls|
    ensures Stops(calls', from, k) == Stops(calls, from, k)
  {
    SameGroup(calls, calls', from, k + 1);
  }

  lemma SameRecord(calls: seq<Call>, calls': seq<Call>, r: Record)
    requires SameCalls(calls, calls') && RecordOk(calls, r)
    ensures RecordOk(calls', r)
  {
    SameGroup(calls, calls', r.from, r.upto);
    SameConcat(calls, calls', r.from);
    forall k | r.from < k < r.upto ensures !Stops(calls', r.from, k) {
      SameStops(calls, calls', r.from, k);
    }
  }

  lemma SameLog(calls: seq<Call>, calls': seq<Call>, log: seq<Record>, logged: nat)
    requires SameCalls(calls, calls') && LogOk(calls, log, logged)
    ensures LogOk(calls', log, logged)
  {
    forall r | 0 <= r < |log| ensures RecordOk(calls', log[r]) {
      SameRecord(calls, calls', log[r]);
    }
  }

  lemma SameStore(s: State, s': State)
    requires StoreOk(s) && SameCalls(s.calls, s'.calls)
    requires s'.lastSequence == s.lastSequence && Store(s') == Store(s)
    requires Head(s') == Head(s) && Logged(s') == Logged(s) && Inserted(s') == Inserted(s)
    ensures StoreOk(s')
  {
    SameConcat(s.calls, s'.calls, Head(s));
    SameConcat(s.calls, s'.calls, Logged(s));
  }

  lemma SameUnlocked(s: State, s': State)
    requires LeaderOk(s) && FrontIs(s) && FrontIs(s') && Front(s') == Front(s) && SameCalls(s.calls, s'.calls)
    requires s'.calls[Front(s)] == s.calls[Front(s)] && s'.log == s.log && s'.lastSequence == s.lastSequence
    ensures LeaderOk(s')
  {
    var i := Front(s);
    var c := s.calls[i];
    if UnlockedPhase(c.phase) {
      forall k | i < k < c.phase.upto ensures !Stops(s'.calls, i, k) {
        SameStops(s.calls, s'.calls, i, k);
      }
      SameGroup(s.calls, s'.calls, i, c.phase.upto);
    }
  }

  lemma SameSync(s: State, s': State)
    requires SyncOk(s) && 0 <= Logged(s) && LogOk(s.calls, s.log, Logged(s)) && SameCalls(s.calls, s'.calls)
    requires s'.log == s.log && Head(s') == Head(s)
    ensures SyncOk(s')
  {
    forall r | 0 <= r < |s'.log| && s'.log[r].upto <= Head(s') && s'.log[r].from < |s'.calls|
    && s'.calls[s'.log[r].from].sync
      ensures s'.log[r].synced
    {
      assert RecordOk(s.calls, s.log[r]);
    }
  }

  /** Steps that change no data: what is left to check is the queue and the leader. */
  lemma QuietStep(s: State, s': State)
    requires Inv(s) && SameCalls(s.calls, s'.calls) && QueueOk(s') && LeaderOk(s')
    requires s'.log == s.log && s'.lastSequence == s.lastSequence && Store(s') == Store(s)
    requires Head(s') == Head(s) && Logged(s') == Logged(s) && Inserted(s') == Inserted(s)
    ensures Inv(s')
  {
    SameLog(s.calls, s'.calls, s.log, Logged(s));
    SameSync(s, s');
    SameStore(s, s');
  }

  // ---------- every step keeps the invariant ----------

  lemma EnqueueKeeps(s: State, s': State)
    requires Inv(s) && Enqueue(s, s')
    ensures Inv(s')
  {
    hide LogOk, StoreOk, SyncOk, Store, Concat, GroupWrites, Stops, RecordOk;
    if FrontIs(s) {
      SameUnlocked(s, s');
    }
    SameFields(s, s');
    QuietStep(s, s');
  }

  lemma PhaseQueue(s: State, p: Phase)
    requires QueueOk(s) && FrontIs(s) && !p.Returned? && !s.calls[Front(s)].phase.Returned?
    ensures QueueOk(s.(calls := SetPhase(s.calls, Front(s), p)))
  {
  }

  /** A front call that is not in the unlocked phase moves on without entering it. */
  lemma PhaseKeeps(s: State, s': State)
    requires Inv(s) && (Lead(s, s') || SwitchMemtable(s, s'))
    ensures Inv(s')
  {
    hide LogOk, StoreOk, SyncOk, Concat, GroupWrites, Stops, RecordOk, QueueOk;
    PhaseQueue(s, s'.calls[Front(s)].phase);
    assert QueueOk(s.(calls := s'.calls));
    SameQueue(s.(calls := s'.calls), s');
    assert Store(s') == Store(s);
    QuietStep(s, s');
  }

  lemma SameQueue(s: State, s': State)
    requires QueueOk(s) && s'.calls == s.calls && s'.queue == s.queue
    ensures QueueOk(s')
  {
  }

  lemma StartKeeps(s: State, s': State)
    requires Inv(s) && StartGroup(s, s')
    ensures Inv(s')
  {
    hide LogOk, StoreOk, SyncOk, Concat, GroupWrites, Stops, RecordOk, QueueOk, Store;
    var i := Front(s);
    var upto: nat :| IsGroup(s.calls, i, upto) && s' == s.(calls := SetPhase(s.calls, i, Logging(upto)));
    PhaseQueue(s, Logging(upto));
    forall k | i < k < upto ensures !Stops(s'.calls, i, k) {
      SameStops(s.calls, s'.calls, i, k);
    }
    SameFields(s, s');
    QuietStep(s, s');
  }

  lemma SameFields(s: State, s': State)
    requires s'.mem == s.mem && s'.imm == s.imm && s'.flushed == s.flushed
    ensures Store(s') == Store(s)
  {
  }

  lemma FlushKeeps(s: State, s': State)
    requires Inv(s) && Flush(s, s')
    ensures Inv(s')
  {
    hide LogOk, StoreOk, SyncOk, Concat, GroupWrites, Stops, RecordOk, QueueOk;
    SameQueue(s, s');
    if FrontIs(s) { SameUnlocked(s, s'); }
    assert Store(s') == Store(s);
    QuietStep(s, s');
  }

  lemma VersionsPrefix(h: History, h': History, n: nat)
    requires h <= h' && n <= |h|
    ensures Versions(h', n) == Versions(h, n)
  {
  }

  lemma AppendKeepsLog(calls: seq<Call>, log: seq<Record>, logged: nat, r: Record)
    requires LogOk(calls, log, logged) && RecordOk(calls, r) && r.from == logged
    ensures LogOk(calls, log + [r], r.upto)
  {
    hide GroupWrites, Concat, Stops;
    var log' := log + [r];
    forall i | 0 <= i < r.upto && calls[i].batch.Some?
      ensures exists q :: 0 <= q < |log'| && log'[q].from <= i < log'[q].upto
    {
      if i < logged {
        var q :| 0 <= q < |log| && log[q].from <= i < log[q].upto;
        assert log'[q] == log[q];
      } else {
        assert log'[|log|] == r;
      }
    }
  }

  lemma AppendKeepsSync(s: State, s': State, r: Record)
    requires SyncOk(s) && 0 <= Logged(s) && LogOk(s.calls, s.log, Logged(s)) && SameCalls(s.calls, s'.calls)
    requires s'.log == s.log + [r] && Head(s') == Head(s) < r.upto
    ensures SyncOk(s')
  {
    forall q | 0 <= q < |s'.log| && s'.log[q].upto <= Head(s') && s'.log[q].from < |s'.calls|
    && s'.calls[s'.log[q].from].sync
      ensures s'.log[q].synced
    {
      assert RecordOk(s.calls, s.log[q]);
    }
  }

  lemma LogKeepsStore(s: State, s': State, upto: nat)
    requires StoreOk(s) && SameCalls(s.calls, s'.calls) && Logged(s) == Head(s) && Head(s') == Head(s)
    requires s'.lastSequence == s.lastSequence && Store(s') == Store(s) && Inserted(s) == 0 == Inserted(s')
    requires Logged(s') == upto && Head(s) <= upto <= |s.calls|
    ensures StoreOk(s')
  {
    SameConcat(s.calls, s'.calls, Head(s));
    SameConcat(s.calls, s'.calls, upto);
    GroupConcat(s.calls, Head(s), upto);
    VersionsPrefix(Concat(s.calls, Head(s)), Concat(s.calls, upto), s.lastSequence);
  }

  lemma LogKeeps(s: State, s': State)
    requires Inv(s) && AddLogRecord(s, s')
    ensures Inv(s')
  {
    hide LogOk, StoreOk, SyncOk, Concat, GroupWrites, Stops, QueueOk, Store;
    var i, upto := Front(s), s.calls[Front(s)].phase.upto;
    FrontIsHead(s);
    LastSequenceIs(s);
    PhaseQueue(s, s'.calls[i].phase);
    SameQueue(s.(calls := s'.calls), s');
    var r := s'.log[|s.log|];
    assert RecordOk(s.calls, r);
    AppendKeepsLog(s.calls, s.log, Logged(s), r);
    SameLog(s.calls, s'.calls, s'.log, upto);
    AppendKeepsSync(s, s', r);
    SameFields(s, s');
    LogKeepsStore(s, s', upto);
    SameGroup(s.calls, s'.calls, i, upto);
    forall k | i < k < upto ensures !Stops(s'.calls, i, k) { SameStops(s.calls, s'.calls, i, k); }
  }

  lemma FrontIsHead(s: State)
    requires QueueOk(s) && s.queue != []
    ensures Front(s) == Head(s) < |s.calls| && FrontIs(s)
  {
  }

  lemma LastSequenceIs(s: State)
    requires StoreOk(s)
    ensures 0 <= Head(s) <= Logged(s) <= |s.calls| && s.lastSequence == |Concat(s.calls, Head(s))|
  {
  }

  lemma SyncedRecordOk(calls: seq<Call>, r: Record, synced: bool)
    requires RecordOk(calls, r)
    ensures RecordOk(calls, r.(synced := synced))
  {
  }

  lemma SyncKeepsLog(calls: seq<Call>, log: seq<Record>, logged: nat, log': seq<Record>)
    requires LogOk(calls, log, logged) && |log'| == |log|
    requires forall r :: 0 <= r < |log| ==> log'[r] == log[r].(synced := log'[r].synced)
    ensures LogOk(calls, log', logged)
  {
    hide RecordOk;
    forall r | 0 <= r < |log'| ensures RecordOk(calls, log'[r]) && log'[r].upto == log[r].upto {
      SyncedRecordOk(calls, log[r], log'[r].synced);
    }
    forall i | 0 <= i < logged && calls[i].batch.Some?
      ensures exists q :: 0 <= q < |log'| && log'[q].from <= i < log'[q].upto
    {
      var q :| 0 <= q < |log| && log[q].from <= i < log[q].upto;
      assert log'[q].from == log[q].from;
    }
  }

  lemma SyncKeepsSync(s: State, s': State)
    requires SyncOk(s) && 0 <= Logged(s) && LogOk(s.calls, s.log, Logged(s)) && SameCalls(s.calls, s'.calls)
    requires Head(s') == Head(s)
    requires s.log != [] && s'.log == s.log[|s.log| - 1 := s.log[|s.log| - 1].(synced := true)]
    ensures SyncOk(s')
  {
    forall q | 0 <= q < |s'.log| && s'.log[q].upto <= Head(s') && s'.log[q].from < |s'.calls|
    && s'.calls[s'.log[q].from].sync
      ensures s'.log[q].synced
    {
      assert RecordOk(s.calls, s.log[q]);
    }
  }

  lemma SyncKeeps(s: State, s': State)
    requires Inv(s) && SyncLog(s, s')
    ensures Inv(s')
  {
    hide LogOk, StoreOk, SyncOk, Concat, GroupWrites, Stops, QueueOk, Store, RecordOk;
    var i, upto := Front(s), s.calls[Front(s)].phase.upto;
    PhaseQueue(s, s'.calls[i].phase);
    SameQueue(s.(calls := s'.calls), s');
    SyncKeepsLog(s.calls, s.log, Logged(s), s'.log);
    SameLog(s.calls, s'.calls, s'.log, upto);
    SyncKeepsSync(s, s');
    SameFields(s, s');
    SameStore(s, s');
    SameGroup(s.calls, s'.calls, i, upto);
    forall k | i < k < upto ensures !Stops(s'.calls, i, k) { SameStops(s.calls, s'.calls, i, k); }
  }

  /** The next write of the record is the next version of the history. */
  lemma NextVersion(calls: seq<Call>, from: nat, upto: nat, done: nat)
    requires from <= upto <= |calls| && done < |GroupWrites(calls, from, upto)|
    ensures var h, n, w := Concat(calls, upto), |Concat(calls, from)| + done, GroupWrites(calls, from, upto)[done];
            n < |h| && Versions(h, n + 1) == Versions(h, n) + [Entry(w.key, n + 1, w.op)]
  {
    GroupConcat(calls, from, upto);
  }

  lemma InsertGrowsStore(s: State, s': State, e: Entry)
    requires s'.mem == s.mem + [e] && s'.imm == s.imm && s'.flushed == s.flushed
    ensures Store(s') == Store(s) + [e]
  {
  }

  lemma InsertKeepsStore(s: State, s': State)
    requires StoreOk(s) && InsertOne(s, s') && Head(s) == Front(s) && Front(s) <= s.calls[Front(s)].phase.upto
    requires Logged(s) == Logged(s') == s.calls[Front(s)].phase.upto && Inserted(s') == Inserted(s) + 1
    requires s.log[|s.log| - 1].writes == GroupWrites(s.calls, Front(s), s.calls[Front(s)].phase.upto)
    requires s.log[|s.log| - 1].seqno == s.lastSequence + 1
    ensures StoreOk(s')
  {
    hide Versions, GroupWrites, Concat, Store;
    var i, p, r := Front(s), s.calls[Front(s)].phase, s.log[|s.log| - 1];
    assert Inserted(s) == p.done;
    SameConcat(s.calls, s'.calls, i);
    SameConcat(s.calls, s'.calls, p.upto);
    NextVersion(s.calls, i, p.upto, p.done);
    InsertGrowsStore(s, s', Entry(r.writes[p.done].key, r.seqno + p.done, r.writes[p.done].op));
  }

  lemma InsertKeeps(s: State, s': State)
    requires Inv(s) && InsertOne(s, s')
    ensures Inv(s')
  {
    hide LogOk, StoreOk, SyncOk, Concat, GroupWrites, Stops, QueueOk, Store, RecordOk;
    var i, upto := Front(s), s.calls[Front(s)].phase.upto;
    FrontIsHead(s);
    PhaseQueue(s, s'.calls[i].phase);
    SameQueue(s.(calls := s'.calls), s');
    SameLog(s.calls, s'.calls, s.log, Logged(s));
    SameSync(s, s');
    InsertKeepsStore(s, s');
    InsertKeepsLeader(s, s');
  }

  lemma InsertKeepsLeader(s: State, s': State)
    requires LeaderOk(s) && InsertOne(s, s')
    ensures LeaderOk(s')
  {
    hide GroupWrites, Stops, Concat;
    var i, upto := Front(s), s.calls[Front(s)].phase.upto;
    SameGroup(s.calls, s'.calls, i, upto);
    forall k | i < k < upto ensures !Stops(s'.calls, i, k) { SameStops(s.calls, s'.calls, i, k); }
  }

  lemma ReturnQueue(s: State, s': State, upto: nat)
    requires QueueOk(s) && FrontIs(s) && Head(s) < upto <= |s.calls|
    requires s'.calls == Return(s.calls, Head(s), upto) && s'.queue == s.queue[upto - Head(s)..]
    ensures QueueOk(s') && Head(s') == upto && SameCalls(s.calls, s'.calls)
    ensures FrontIs(s') ==> s'.calls[Front(s')].phase.Waiting?
  {
  }

  lemma FinishStore(s: State, s': State, upto: nat)
    requires StoreOk(s) && SameCalls(s.calls, s'.calls) && Store(s') == Store(s)
    requires Head(s') == Logged(s') == upto <= |s.calls| && Inserted(s') == 0
    requires Head(s) <= upto && Concat(s.calls, Logged(s)) == Concat(s.calls, upto)
    requires s'.lastSequence == s.lastSequence + Inserted(s) == |Concat(s.calls, upto)|
    ensures StoreOk(s')
  {
    SameConcat(s.calls, s'.calls, upto);
  }

  lemma FinishSync(s: State, s': State)
    requires SyncOk(s) && 0 <= Logged(s) && LogOk(s.calls, s.log, Logged(s)) && SameCalls(s.calls, s'.calls)
    requires s'.log == s.log && 0 <= Head(s)
    requires forall q :: 0 <= q < |s.log| && s.log[q].upto > Head(s) && s.log[q].from < |s.calls| ==>
               s.calls[s.log[q].from].sync ==> s.log[q].synced
    ensures SyncOk(s')
  {
    forall q | 0 <= q < |s'.log| && s'.log[q].upto <= Head(s') && s'.log[q].from < |s'.calls|
    && s'.calls[s'.log[q].from].sync
      ensures s'.log[q].synced
    {
      assert RecordOk(s.calls, s.log[q]);
    }
  }

  /** Only the last record reaches past the calls that have returned. */
  lemma OnlyLastIsOpen(calls: seq<Call>, log: seq<Record>, logged: nat, head: nat)
    requires LogOk(calls, log, logged) && log != [] && log[|log| - 1].from == head
    ensures forall q :: 0 <= q < |log| && log[q].upto > head ==> q == |log| - 1
  {
  }

  lemma FinishKeeps(s: State, s': State)
    requires Inv(s) && Finish(s, s')
    ensures Inv(s')
  {
    hide LogOk, StoreOk, SyncOk, Concat, GroupWrites, Stops, QueueOk, Store, RecordOk;
    var i, p := Front(s), s.calls[Front(s)].phase;
    FrontIsHead(s);
    LastSequenceIs(s);
    ReturnQueue(s, s', p.upto);
    OnlyLastIsOpen(s.calls, s.log, Logged(s), i);
    FinishSync(s, s');
    SameLog(s.calls, s'.calls, s.log, Logged(s));
    SameFields(s, s');
    GroupConcat(s.calls, i, p.upto);
    FinishStore(s, s', p.upto);
  }

  lemma NothingOpen(calls: seq<Call>, log: seq<Record>, logged: nat)
    requires LogOk(calls, log, logged) && logged < |calls| && calls[logged].batch.None?
    ensures LogOk(calls, log, logged + 1) && forall q :: 0 <= q < |log| ==> log[q].upto <= logged
  {
  }

  lemma EmptyAddsNothing(calls: seq<Call>, i: nat)
    requires i < |calls| && calls[i].batch.None?
    ensures Concat(calls, i + 1) == Concat(calls, i)
  {
  }

  lemma FinishEmptyKeeps(s: State, s': State)
    requires Inv(s) && FinishEmpty(s, s')
    ensures Inv(s')
  {
    hide LogOk, StoreOk, SyncOk, GroupWrites, Stops, QueueOk, Store, RecordOk, Concat;
    var i := Front(s);
    FrontIsHead(s);
    LastSequenceIs(s);
    ReturnQueue(s, s', i + 1);
    NothingOpen(s.calls, s.log, i);
    FinishSync(s, s');
    SameLog(s.calls, s'.calls, s.log, i + 1);
    SameFields(s, s');
    EmptyAddsNothing(s.calls, i);
    FinishStore(s, s', i + 1);
  }

  lemma StepKeeps(s: State, s': State)
    requires Inv(s) && Next(s, s')
    ensures Inv(s')
  {
    hide Inv;
    if Enqueue(s, s') { EnqueueKeeps(s, s'); }
    else if Lead(s, s') || SwitchMemtable(s, s') { PhaseKeeps(s, s'); }
    else if StartGroup(s, s') { StartKeeps(s, s'); }
    else if AddLogRecord(s, s') { LogKeeps(s, s'); }
    else if SyncLog(s, s') { SyncKeeps(s, s'); }
    else if InsertOne(s, s') { InsertKeeps(s, s'); }
    else if Finish(s, s') { FinishKeeps(s, s'); }
    else if FinishEmpty(s, s') { FinishEmptyKeeps(s, s'); }
    else { FlushKeeps(s, s'); }
  }

  // ---------- whole runs ----------

  ghost predicate Run(states: seq<State>) {
    && states != [] && Init(states[0])
    && forall i, j {:trigger Next(states[i], states[j])} :: 0 <= i < |states| - 1 && j == i + 1 ==>
      Next(states[i], states[j])
  }

  lemma {:induction false} InvariantOverRuns(states: seq<State>, i: nat)
    requires Run(states) && i < |states|
    ensures Inv(states[i])
  {
    hide Next, Inv, Init;
    if i > 0 {
      InvariantOverRuns(states, i - 1);
      assert Next(states[i - 1], states[i]);
      StepKeeps(states[i - 1], states[i]);
    } else {
      InitHolds(states[0]);
    }
  }

  lemma InitHolds(s: State)
    requires Init(s)
    ensures Inv(s)
  {
    assert Store(s) == Versions([], 0);
  }

  /** The writes a list of records holds, in order. */
  function LogWrites(log: seq<Record>): History {
    if log == [] then [] else LogWrites(log[..|log| - 1]) + log[|log| - 1].writes
  }

  /**
   Every batch is logged exactly once, in queue order: the log's records concatenated are the
   batches of the calls logged so far, concatenated, and each record carries the sequence number
   of its first write.
   */
  lemma LoggedOnceInOrder(states: seq<State>, i: nat)
    requires Run(states) && i < |states|
    ensures var s := states[i];
            && 0 <= Head(s) <= Logged(s) <= |s.calls|
            && LogWrites(s.log) == Concat(s.calls, Logged(s))
            && forall r :: 0 <= r < |s.log| ==> s.log[r].seqno == |LogWrites(s.log[..r])| + 1
  {
    InvariantOverRuns(states, i);
    var s := states[i];
    LogIsConcat(s.calls, s.log, Logged(s));
    forall r | 0 <= r < |s.log| ensures s.log[r].seqno == |LogWrites(s.log[..r])| + 1 {
      PrefixLogOk(s.calls, s.log, Logged(s), r);
      LogIsConcat(s.calls, s.log[..r], s.log[r].from);
    }
  }

  lemma PrefixLogOk(calls: seq<Call>, log: seq<Record>, logged: nat, r: nat)
    requires LogOk(calls, log, logged) && r < |log|
    ensures log[r].from <= |calls| && LogOk(calls, log[..r], log[r].from)
  {
    hide RecordOk;
    assert RecordOk(calls, log[r]);
    RecordRange(calls, log[r]);
    forall i | 0 <= i < log[r].from && calls[i].batch.Some?
      ensures exists q :: 0 <= q < |log[..r]| && log[..r][q].from <= i < log[..r][q].upto
    {
      var q :| 0 <= q < |log| && log[q].from <= i < log[q].upto;
      assert q < r;
      assert log[..r][q] == log[q];
    }
  }

  lemma RecordRange(calls: seq<Call>, r: Record)
    requires RecordOk(calls, r)
    ensures r.from < r.upto <= |calls|
  {
  }

  lemma {:induction false} LogIsConcat(calls: seq<Call>, log: seq<Record>, logged: nat)
    requires LogOk(calls, log, logged)
    ensures LogWrites(log) == Concat(calls, logged)
    decreases logged
  {
    hide Concat, Stops, GroupWrites, LogOk;
    if logged == 0 {
      NoRecords(calls, log);
      assert Concat(calls, 0) == [] by { NoCalls(calls); }
    } else {
      if log != [] && log[|log| - 1].upto == logged {
        var last := log[|log| - 1];
        LastRecord(calls, log, logged);
        PrefixLogOk(calls, log, logged, |log| - 1);
        LogIsConcat(calls, log[..|log| - 1], last.from);
        GroupConcat(calls, last.from, logged);
      } else {
        LastIsEmpty(calls, log, logged);
        LogIsConcat(calls, log, logged - 1);
        EmptyAddsNothing(calls, logged - 1);
      }
    }
  }

  lemma NoCalls(calls: seq<Call>)
    ensures Concat(calls, 0) == []
  {
  }

  lemma LastRecord(calls: seq<Call>, log: seq<Record>, logged: nat)
    requires LogOk(calls, log, logged) && log != []
    ensures var r := log[|log| - 1]; r.from < r.upto <= |calls| && r.writes == GroupWrites(calls, r.from, r.upto)
  {
    assert RecordOk(calls, log[|log| - 1]);
  }

  lemma NoRecords(calls: seq<Call>, log: seq<Record>)
    requires LogOk(calls, log, 0)
    ensures log == []
  {
    hide RecordOk;
    if log != [] { RecordRange(calls, log[0]); }
  }

  lemma LastIsEmpty(calls: seq<Call>, log: seq<Record>, logged: nat)
    requires LogOk(calls, log, logged) && logged > 0 && (log == [] || log[|log| - 1].upto != logged)
    ensures logged <= |calls| && calls[logged - 1].batch.None? && LogOk(calls, log, logged - 1)
  {
    hide RecordOk;
    forall q | 0 <= q < |log| ensures log[q].upto < logged {
      var last := |log| - 1;
      if q < last {
        RecordRange(calls, log[last]);
        assert log[q].upto <= log[last].from;
      }
    }
  }

  /**
   Every write is inserted exactly once with consecutive sequence numbers: what the memtables
   and files hold, in the order it was inserted, is the history's first writes, numbered from one.
   */
  lemma InsertedOnceInOrder(states: seq<State>, i: nat)
    requires Run(states) && i < |states|
    ensures var s := states[i];
            && 0 <= Logged(s) <= |s.calls| && s.lastSequence + Inserted(s) <= |Concat(s.calls, Logged(s))|
            && Store(s) == Versions(Concat(s.calls, Logged(s)), s.lastSequence + Inserted(s))
  {
    InvariantOverRuns(states, i);
  }

  /** A reader's snapshot falls between two calls: it holds all writes of a call or none of them. */
  lemma SnapshotSeesWholeGroups(states: seq<State>, i: nat, c: nat)
    requires Run(states) && i < |states| && c < |states[i].calls|
    ensures var s := states[i];
            if s.calls[c].phase.Returned? then |Concat(s.calls, c + 1)| <= s.lastSequence
            else s.lastSequence <= |Concat(s.calls, c)|
  {
    hide LogOk, LeaderOk, SyncOk, Versions, Store, Concat;
    InvariantOverRuns(states, i);
    var s := states[i];
    if c < Head(s) { GroupConcat(s.calls, c + 1, Head(s)); } else { GroupConcat(s.calls, Head(s), c); }
  }

  /** What a snapshot taken in one state sees never changes later: the same versions, whatever is in flight. */
  lemma SnapshotIsStable(states: seq<State>, i: nat, j: nat)
    requires Run(states) && i <= j < |states|
    ensures states[i].lastSequence <= |Store(states[i])| && states[i].lastSequence <= |Store(states[j])|
    ensures Store(states[j])[..states[i].lastSequence] == Store(states[i])[..states[i].lastSequence]
    ensures forall k :: 0 <= k < |Store(states[j])| ==>
              (Store(states[j])[k].seqno <= states[i].lastSequence <==> k < states[i].lastSequence)
  {
    hide Store, Versions;
    InvariantOverRuns(states, i);
    InvariantOverRuns(states, j);
    StoreOnlyGrows(states, i, j);
    VersionNumbers(states[j]);
  }

  lemma VersionNumbers(s: State)
    requires StoreOk(s)
    ensures s.lastSequence <= |Store(s)| && forall k :: 0 <= k < |Store(s)| ==> Store(s)[k].seqno == k + 1
  {
  }

  lemma StoreGrows(s: State, s': State)
    requires Next(s, s')
    ensures Store(s) <= Store(s')
  {
    hide IsGroup, Return, SetPhase;
    if InsertOne(s, s') {
      assert Store(s) == Store(s')[..|Store(s)|];
    } else {
      assert Store(s') == Store(s);
    }
  }

  lemma {:induction false} StoreOnlyGrows(states: seq<State>, i: nat, j: nat)
    requires Run(states) && i <= j < |states|
    ensures Store(states[i]) <= Store(states[j])
    ensures StoreOk(states[i]) && states[i].lastSequence <= |Store(states[i])|
    decreases j - i
  {
    hide Next, LogOk, LeaderOk, SyncOk, Versions, Store, QueueOk, StoreOk;
    InvariantOverRuns(states, i);
    VersionNumbers(states[i]);
    if i < j {
      StoreOnlyGrows(states, i, j - 1);
      assert Next(states[j - 1], states[j]);
      StoreGrows(states[j - 1], states[j]);
    }
  }

  /** Only the call at the front of the queue is ever past waiting. */
  lemma OnlyFrontIsUnlocked(states: seq<State>, i: nat, c: nat)
    requires Run(states) && i < |states| && c < |states[i].calls|
    requires !states[i].calls[c].phase.Waiting? && !states[i].calls[c].phase.Returned?
    ensures FrontIs(states[i]) && c == Front(states[i])
  {
    InvariantOverRuns(states, i);
  }

  /** While a group is logged and inserted, its memtable stays where it is: no step switches it. */
  lemma NoSwitchDuringGroup(states: seq<State>, i: nat, c: nat)
    requires Run(states) && i + 1 < |states| && c < |states[i].calls| && UnlockedPhase(states[i].calls[c].phase)
    ensures !SwitchMemtable(states[i], states[i + 1]) && states[i].mem <= states[i + 1].mem
  {
    OnlyFrontIsUnlocked(states, i, c);
    assert Next(states[i], states[i + 1]);
  }

  /** A call that asked for its write to be synced has it in a synced record by the time it returns. */
  lemma SyncedBeforeReturn(states: seq<State>, i: nat, c: nat)
    requires Run(states) && i < |states| && c < |states[i].calls|
    requires states[i].calls[c].phase.Returned? && states[i].calls[c].sync && states[i].calls[c].batch.Some?
    ensures exists r :: 0 <= r < |states[i].log| && states[i].log[r].from <= c < states[i].log[r].upto
                        && states[i].log[r].synced
  {
    hide StoreOk, LeaderOk, Stops, GroupWrites, Concat, RecordOk;
    InvariantOverRuns(states, i);
    var s := states[i];
    LogReaches(s);
    assert c < Logged(s) && s.calls[c].batch.Some?;
    var r :| 0 <= r < |s.log| && s.log[r].from <= c < s.log[r].upto;
    RecordRange(s.calls, s.log[r]);
    RidersNeedSync(s.calls, s.log[r], c);
    WholeRecordsReturn(s, r);
  }

  lemma RidersNeedSync(calls: seq<Call>, r: Record, c: nat)
    requires RecordOk(calls, r) && r.from <= c < r.upto <= |calls| && calls[c].sync
    ensures calls[r.from].sync
  {
    if r.from < c { assert !Stops(calls, r.from, c); }
  }

  /** Beyond the returned calls the log reaches only by the record being worked on. */
  lemma LogReaches(s: State)
    requires LeaderOk(s) && QueueOk(s)
    ensures 0 <= Head(s) <= Logged(s)
    ensures Logged(s) <= Head(s) || (s.log != [] && s.log[|s.log| - 1].from == Head(s))
  {
    if s.queue != [] { FrontIsHead(s); }
  }

  lemma WholeRecordsReturn(s: State, r: nat)
    requires 0 <= Head(s) && 0 <= Logged(s) && LogOk(s.calls, s.log, Logged(s))
    requires Logged(s) <= Head(s) || (s.log != [] && s.log[|s.log| - 1].from == Head(s))
    requires r < |s.log| && s.log[r].from < Head(s)
    ensures s.log[r].upto <= Head(s)
  {
    hide RecordOk, Logged;
    if Logged(s) > Head(s) {
      assert s.log[r].upto <= s.log[|s.log| - 1].from;
    }
  }

  /** No group outgrows the limit unless its first batch already does. */
  lemma GroupsAreBounded(states: seq<State>, i: nat, r: nat)
    requires Run(states) && i < |states| && r < |states[i].log|
    ensures var s, rec := states[i], states[i].log[r];
            rec.from < rec.upto <= |s.calls| &&
            (GroupSize(s.calls, rec.from, rec.upto) <= MaxSize(SizeOf(s.calls[rec.from]))
             || GroupSize(s.calls, rec.from, rec.upto) == SizeOf(s.calls[rec.from]))
  {
    InvariantOverRuns(states, i);
    var s, rec := states[i], states[i].log[r];
    assert RecordOk(s.calls, rec);
    BoundedUpTo(s.calls, rec, rec.upto);
  }

  lemma {:induction false} BoundedUpTo(calls: seq<Call>, rec: Record, k: nat)
    requires RecordOk(calls, rec) && rec.from < k <= rec.upto
    ensures GroupSize(calls, rec.from, k) <= MaxSize(SizeOf(calls[rec.from]))
            || GroupSize(calls, rec.from, k) == SizeOf(calls[rec.from])
  {
    if k == rec.from + 1 {
      assert GroupSize(calls, rec.from, rec.from) == 0;
    } else {
      assert !Stops(calls, rec.from, k - 1);
      BoundedUpTo(calls, rec, k - 1);
    }
  }
}
