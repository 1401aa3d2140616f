/**
 Group commit seen from the database: in every interleaving, each step of the
 callers is one operation of DbImpl.DB or none at all.
 */
module GroupCommitDb {
  import opened Wrappers
  import opened Keys
  import opened Mvcc
  import opened Versions
  import opened Database
  import opened Durability
  import opened DbImpl
  import GC = GroupCommit

  /** The versions whose numbers are published. */
  ghost function Published(mem: seq<Entry>, upto: nat): iset<Entry> {
    iset e | e in mem && e.seqno <= upto
  }

  /** The database holds what the callers have published. */
  ghost predicate Shows(s: GC.State, h: History, mem: seq<Entry>, imm: Option<seq<Entry>>) {
    && 0 <= GC.Head(s) && h == GC.Concat(s.calls, GC.Head(s))
    && Elems(mem) == Published(s.mem, |h|)
    && (imm.Some? <==> s.imm.Some?) && Elems(EntriesOf(imm)) == Elems(EntriesOf(s.imm))
    && |s.flushed| + |EntriesOf(s.imm)| <= |h|
  }

  /** A group's last step is one ApplyBatch of its writes; the memtable is switched and flushed as there. */
  ghost predicate Effect(s: GC.State, s': GC.State, step: Option<Concurrent>) {
    if GC.Finish(s, s') then step == Some(Commit(s.log[|s.log| - 1].writes))
    else if GC.SwitchMemtable(s, s') then step == Some(FillMemtable)
    else if GC.Flush(s, s') then step.Some? && step.value.Flush?
    else step == None
  }

  /** The memtable holds the versions from a certain number on. */
  lemma MemIsTail(s: GC.State)
    requires GC.StoreOk(s)
    ensures var h, k := GC.Concat(s.calls, GC.Logged(s)), |s.flushed| + |EntriesOf(s.imm)|;
            && k + |s.mem| == s.lastSequence + GC.Inserted(s) <= |h|
            && forall j :: 0 <= j < |s.mem| ==> s.mem[j] == Entry(h[k + j].key, k + j + 1, h[k + j].op)
  {
    var h, k := GC.Concat(s.calls, GC.Logged(s)), |s.flushed| + |EntriesOf(s.imm)|;
    assert |GC.Store(s)| == k + |s.mem|;
    forall j | 0 <= j < |s.mem| ensures s.mem[j] == Entry(h[k + j].key, k + j + 1, h[k + j].op) {
      assert GC.Store(s)[k + j] == s.mem[j];
    }
  }

  lemma HeadIsPublished(s: GC.State)
    requires GC.StoreOk(s)
    ensures 0 <= GC.Head(s) <= GC.Logged(s) <= |s.calls| && s.lastSequence == |GC.Concat(s.calls, GC.Head(s))|
  {
  }

  /** The facts of the front call that a finishing group rests on. */
  lemma FinishFacts(s: GC.State, s': GC.State)
    requires GC.Inv(s) && GC.Finish(s, s')
    ensures s.log != []
    ensures var r := s.log[|s.log| - 1];
            && 0 <= GC.Head(s) && 0 <= GC.Head(s') <= |s'.calls|
            && GC.Concat(s'.calls, GC.Head(s')) == GC.Concat(s.calls, GC.Head(s)) + r.writes
            && 0 <= GC.Logged(s) && GC.Concat(s.calls, GC.Logged(s)) == GC.Concat(s.calls, GC.Head(s)) + r.writes
            && GC.Inserted(s) == |r.writes|
    ensures s'.mem == s.mem && s'.imm == s.imm && s'.flushed == s.flushed
  {
    hide GC.LogOk, GC.SyncOk, GC.StoreOk, GC.Stops, GC.Concat, GC.GroupWrites;
    var i, p := GC.Front(s), s.calls[GC.Front(s)].phase;
    GC.FrontIsHead(s);
    GC.ReturnQueue(s, s', p.upto);
    GC.GroupConcat(s.calls, i, p.upto);
    GC.SameConcat(s.calls, s'.calls, p.upto);
  }

  lemma FinishShows(s: GC.State, s': GC.State, h: History, mem: seq<Entry>, imm: Option<seq<Entry>>, mem': seq<Entry>)
    requires GC.Inv(s) && GC.Finish(s, s') && Shows(s, h, mem, imm)
    requires s.log != [] && Elems(mem') == Elems(mem) + Since(h + s.log[|s.log| - 1].writes, |h|)
    ensures Shows(s', h + s.log[|s.log| - 1].writes, mem', imm)
  {
    hide GC.LogOk, GC.LeaderOk, GC.SyncOk, GC.QueueOk, GC.Concat, GC.Finish, GC.StoreOk;
    FinishFacts(s, s');
    HeadIsPublished(s);
    MemIsTail(s);
    var h' := h + s.log[|s.log| - 1].writes;
    PublishedGrows(s.mem, |s.flushed| + |EntriesOf(s.imm)|, h, h');
  }

  /** Publishing the rest of the memtable adds the versions of the new writes. */
  lemma PublishedGrows(mem: seq<Entry>, k: nat, h: History, h': History)
    requires h <= h' && k <= |h| && k + |mem| == |h'|
    requires forall j :: 0 <= j < |mem| ==> mem[j] == Entry(h'[k + j].key, k + j + 1, h'[k + j].op)
    ensures Published(mem, |h'|) == Published(mem, |h|) + Since(h', |h|)
  {
    forall e | e in Since(h', |h|) ensures e in mem {
      assert mem[e.seqno - 1 - k] == e;
    }
  }

  /** Nothing is in flight when the memtable is switched. */
  lemma SwitchShows(s: GC.State, s': GC.State, h: History, mem: seq<Entry>, imm: Option<seq<Entry>>)
    requires GC.Inv(s) && GC.SwitchMemtable(s, s') && Shows(s, h, mem, imm)
    ensures imm == None && Shows(s', h, [], Some(mem))
  {
    hide GC.LogOk, GC.LeaderOk, GC.SyncOk, GC.QueueOk, GC.Concat, GC.StoreOk;
    HeadIsPublished(s);
    MemIsTail(s);
    assert GC.Inserted(s) == 0;
    GC.SameConcat(s.calls, s'.calls, GC.Head(s));
    forall e | e in s.mem ensures e.seqno <= |h| {
      var j :| 0 <= j < |s.mem| && s.mem[j] == e;
    }
  }

  lemma FlushShows(s: GC.State, s': GC.State, h: History, mem: seq<Entry>, imm: Option<seq<Entry>>)
    requires GC.Flush(s, s') && Shows(s, h, mem, imm)
    ensures imm.Some? && Shows(s', h, mem, None)
  {
    hide GC.Concat;
  }

  /** All other steps are invisible to the database. */
  lemma QuietShows(s: GC.State, s': GC.State, h: History, mem: seq<Entry>, imm: Option<seq<Entry>>)
    requires GC.Inv(s) && GC.Next(s, s') && Shows(s, h, mem, imm)
    requires !GC.Finish(s, s') && !GC.SwitchMemtable(s, s') && !GC.Flush(s, s')
    ensures Shows(s', h, mem, imm)
  {
    hide GC.Inv, Shows, GC.FinishEmpty, GC.InsertOne, GC.Enqueue, GC.Lead, GC.StartGroup, GC.AddLogRecord, GC.SyncLog;
    if GC.FinishEmpty(s, s') {
      EmptyShows(s, s', h, mem, imm);
    } else if GC.InsertOne(s, s') {
      InsertShows(s, s', h, mem, imm);
    } else {
      CallsShow(s, s', h, mem, imm);
    }
  }

  lemma EmptyShows(s: GC.State, s': GC.State, h: History, mem: seq<Entry>, imm: Option<seq<Entry>>)
    requires GC.Inv(s) && GC.FinishEmpty(s, s') && Shows(s, h, mem, imm)
    ensures Shows(s', h, mem, imm)
  {
    hide GC.LogOk, GC.LeaderOk, GC.SyncOk, GC.Concat, GC.StoreOk;
    GC.FrontIsHead(s);
    GC.ReturnQueue(s, s', GC.Front(s) + 1);
    GC.EmptyAddsNothing(s.calls, GC.Front(s));
    GC.SameConcat(s.calls, s'.calls, GC.Front(s) + 1);
  }

  /** A call that joins, leads, builds its group or logs it changes only the queue and the log. */
  lemma CallsShow(s: GC.State, s': GC.State, h: History, mem: seq<Entry>, imm: Option<seq<Entry>>)
    requires GC.Inv(s) && Shows(s, h, mem, imm)
    requires GC.Enqueue(s, s') || GC.Lead(s, s') || GC.StartGroup(s, s') || GC.AddLogRecord(s, s') || GC.SyncLog(s, s')
    ensures Shows(s', h, mem, imm)
  {
    hide GC.LogOk, GC.LeaderOk, GC.SyncOk, GC.QueueOk, GC.Concat, GC.StoreOk, GC.IsGroup, GC.GroupWrites;
    GC.SameConcat(s.calls, s'.calls, GC.Head(s));
  }

  /** What is inserted is not published yet. */
  lemma InsertShows(s: GC.State, s': GC.State, h: History, mem: seq<Entry>, imm: Option<seq<Entry>>)
    requires GC.Inv(s) && GC.InsertOne(s, s') && Shows(s, h, mem, imm)
    ensures Shows(s', h, mem, imm)
  {
    hide GC.LogOk, GC.SyncOk, GC.Concat, GC.StoreOk, GC.Stops;
    HeadIsPublished(s);
    GC.SameConcat(s.calls, s'.calls, GC.Head(s));
    var p, r := s.calls[GC.Front(s)].phase, s.log[|s.log| - 1];
    assert s'.mem == s.mem + [Entry(r.writes[p.done].key, r.seqno + p.done, r.writes[p.done].op)];
    assert r.seqno + p.done > |h|;
  }

  /** The database takes the step that the callers take. */
  method Follow(db: DB, ghost s: GC.State, ghost s': GC.State, step: Option<Concurrent>)
    requires GC.Inv(s) && GC.Next(s, s') && Effect(s, s', step) && s'.lastSequence < MAX_SEQUENCE_NUMBER
    requires db.Valid() && Shows(s, db.history, db.mem, db.imm)
    modifies db, db.versions
    ensures db.Valid() && Shows(s', db.history, db.mem, db.imm)
    ensures old(db.Durable()) ==> db.Durable()
    ensures step.None? ==> db.history == old(db.history)
    ensures step.Some? ==> db.history == old(db.history) + CommittedBy(step.value, |old(db.history)|)
  {
    hide *;
    ghost var h, mem, imm := db.history, db.mem, db.imm;
    EffectParts(s, s', step);
    if step.Some? {
      db.Concurrently(step.value);
    }
    assert !GC.Finish(s, s') ==> db.history == h;
    if GC.Finish(s, s') {
      CommitFits(s, s', h, mem, imm);
      FinishShows(s, s', h, mem, imm, db.mem);
    } else if GC.SwitchMemtable(s, s') {
      SwitchShows(s, s', h, mem, imm);
    } else if GC.Flush(s, s') {
      FlushShows(s, s', h, mem, imm);
    } else {
      QuietShows(s, s', h, mem, imm);
    }
  }

  lemma EffectParts(s: GC.State, s': GC.State, step: Option<Concurrent>)
    requires Effect(s, s', step)
    ensures GC.Finish(s, s') ==> s.log != [] && step == Some(Commit(s.log[|s.log| - 1].writes))
    ensures !GC.Finish(s, s') && GC.SwitchMemtable(s, s') ==> step == Some(FillMemtable)
    ensures !GC.Finish(s, s') && !GC.SwitchMemtable(s, s') ==>
              if GC.Flush(s, s') then step.Some? && step.value.Flush? else step == None
    ensures step.Some? && !step.value.Commit? ==> forall n :: CommittedBy(step.value, n) == []
  {
  }

  lemma CommitFits(s: GC.State, s': GC.State, h: History, mem: seq<Entry>, imm: Option<seq<Entry>>)
    requires GC.Inv(s) && GC.Finish(s, s') && Shows(s, h, mem, imm) && s'.lastSequence < MAX_SEQUENCE_NUMBER
    ensures s.log != [] && CommittedBy(Commit(s.log[|s.log| - 1].writes), |h|) == s.log[|s.log| - 1].writes
  {
    hide GC.LogOk, GC.LeaderOk, GC.SyncOk, GC.QueueOk, GC.Concat, GC.StoreOk;
    HeadIsPublished(s);
  }

  /**
   In every interleaving of the callers the database that takes their steps holds, after each
   of them, exactly the batches of the calls that have returned, in queue order.
   */
  method FollowRun(db: DB, ghost states: seq<GC.State>, steps: seq<Option<Concurrent>>)
    requires GC.Run(states) && |states| == |steps| + 1
    requires forall i, j {:trigger Effect(states[i], states[j], steps[i])} :: 0 <= i < |steps| && j == i + 1 ==>
               Effect(states[i], states[j], steps[i])
    requires forall i :: 0 <= i < |states| ==> states[i].lastSequence < MAX_SEQUENCE_NUMBER
    requires db.Valid() && db.Durable() && db.history == [] && db.mem == [] && db.imm == None
    modifies db, db.versions
    ensures db.Valid() && db.Durable()
    ensures var s := states[|steps|];
            && Shows(s, db.history, db.mem, db.imm)
            && 0 <= GC.Head(s) <= |s.calls| && db.history == GC.Concat(s.calls, GC.Head(s))
  {
    hide GC.Inv, GC.Next, GC.Init, Effect, GC.Concat, DB.Valid, DB.Durable;
    StartShows(states[0]);
    for i := 0 to |steps|
      invariant db.Valid() && db.Durable() && Shows(states[i], db.history, db.mem, db.imm)
    {
      GC.InvariantOverRuns(states, i);
      assert GC.Next(states[i], states[i + 1]) && Effect(states[i], states[i + 1], steps[i]);
      Follow(db, states[i], states[i + 1], steps[i]);
    }
    GC.InvariantOverRuns(states, |steps|);
  }

  lemma StartShows(s: GC.State)
    requires GC.Init(s)
    ensures Shows(s, [], [], None)
  {
  }
}
