/**
 DBImpl: the running database (db/db_impl.cc). A compaction starts and installs
 its results under the lock; in between other callers may write, switch
 memtables and take or release snapshots, and full memtables are flushed.
 A flush is one step.
 */
module DbImpl {
  import opened Wrappers
  import opened Keys
  import opened Mvcc
  import opened Cursors
  import opened Versions
  import opened Inputs
  import opened Manifest
  import opened Compactions
  import opened Lsm
  import opened Database
  import opened CompactionLimits
  import opened Durability

  /** What may happen while a merge holds no lock. */
  datatype Concurrent =
    | Commit(batch: seq<Write>)
    | FillMemtable
    | TakeSnapshot
    | DropSnapshot(index: nat)
    | Flush(fileSize: seq<Entry> -> nat, maxGrandparentBytes: nat)

  /** What a step commits after `n` writes. */
  function CommittedBy(step: Concurrent, n: nat): History {
    if step.Commit? && n + |step.batch| < MAX_SEQUENCE_NUMBER then step.batch else []
  }

  function Committed(steps: seq<Concurrent>, n: nat): History {
    if steps == [] then [] else
      var before := Committed(steps[..|steps| - 1], n);
      before + CommittedBy(steps[|steps| - 1], n + |before|)
  }

  lemma NothingCommitted(steps: seq<Concurrent>, n: nat)
    ensures Committed(steps[..0], n) == []
  {
  }

  lemma OneMoreCommitted(steps: seq<Concurrent>, i: nat, n: nat)
    requires i < |steps|
    ensures Committed(steps[..i + 1], n) ==
            Committed(steps[..i], n) + CommittedBy(steps[i], n + |Committed(steps[..i], n)|)
  {
    assert steps[..i + 1][..i] == steps[..i];
  }

  /** The list of snapshots without one of them, if it is there. */
  function WithoutSnapshot(snapshots: seq<nat>, i: nat): seq<nat> {
    if i < |snapshots| then snapshots[..i] + snapshots[i + 1..] else snapshots
  }

  class DB {
    const versions: VersionSet
    var mem: seq<Entry>
    var imm: Option<seq<Entry>>
    var logFileNumber: nat
    /** Live snapshots, oldest first. */
    var snapshots: seq<nat>
    /** Numbers of table files being written. */
    var pendingOutputs: set<nat>
    /** Every committed write. */
    ghost var history: History
    /** Versions needed only below this snapshot may be gone. */
    ghost var horizon: nat
    /** How many writes are in table files. */
    ghost var flushed: nat
    /** The batches in the logs of the immutable memtable and of the current one. */
    ghost var immLog: seq<History>
    ghost var log: seq<History>

    ghost function Held(): (held: seq<set<nat>>)
      reads versions
      ensures |held| == NUM_LEVELS
    {
      seq(NUM_LEVELS,
          l requires 0 <= l < NUM_LEVELS reads versions => if l < |versions.levels| then versions.Held(l) else {})
    }

    ghost predicate Valid()
      reads this, versions
    {
      && versions.Valid() && versions.lastSequence == |history|
      && versions.logNumber <= logFileNumber < versions.nextFileNumber
      && PlacesOrdered(mem, imm, versions.levels)
      && Faithful(Contents(mem, imm, versions.levels), history, horizon)
      && SnapshotsOrdered(snapshots, horizon, |history|)
      && NumbersOk(versions.levels, Held(), versions.nextFileNumber)
      && Reserved(Held(), versions.nextFileNumber, pendingOutputs)
    }

    lemma ValidParts()
      ensures Valid() <==>
              && versions.Valid() && versions.lastSequence == |history|
              && versions.logNumber <= logFileNumber < versions.nextFileNumber
              && PlacesOrdered(mem, imm, versions.levels)
              && Faithful(Contents(mem, imm, versions.levels), history, horizon)
              && SnapshotsOrdered(snapshots, horizon, |history|)
              && NumbersOk(versions.levels, Held(), versions.nextFileNumber)
              && Reserved(Held(), versions.nextFileNumber, pendingOutputs)
      ensures Stored() == Contents(mem, imm, versions.levels)
    {
    }

    ghost function Stored(): iset<Entry>
      reads this, versions
    {
      Contents(mem, imm, versions.levels)
    }

    /**
     A crash loses no more than the ends of the logs, and those numbered from
     `versions.logNumber` are the live ones.
     */
    ghost predicate Durable()
      reads this, versions
    {
      && versions.Recorded(flushed) && FilesServe(versions.levels, history, horizon, flushed)
      && LogsHold(history, flushed, immLog, log, mem, imm)
      && (imm.None? <==> versions.logNumber == logFileNumber)
    }

    lemma DurableParts()
      ensures Durable() <==>
              && versions.Recorded(flushed) && FilesServe(versions.levels, history, horizon, flushed)
              && LogsHold(history, flushed, immLog, log, mem, imm)
              && (imm.None? <==> versions.logNumber == logFileNumber)
    {
    }

    constructor ()
      ensures Valid() && Durable() && fresh(versions)
      ensures history == [] && mem == [] && snapshots == [] && imm == None && horizon == 0
    {
      versions := new VersionSet();
      mem, imm, snapshots, history, horizon := [], None, [], [], 0;
      flushed, immLog, log := 0, [], [];
      logFileNumber := 0;
      pendingOutputs := {};
      new;
      EmptyTree(versions.levels);
      forall l | 0 <= l < NUM_LEVELS ensures versions.Held(l) == {} {
        assert FileSet(versions.levels[l]) == {};
      }
      StartLog();
    }

    /** An object over recovered files; CrashRecovery.Open completes it. */
    constructor Recovering(versions: VersionSet)
      ensures this.versions == versions && mem == [] && imm == None && snapshots == [] && pendingOutputs == {}
      ensures immLog == [] && log == []
    {
      this.versions := versions;
      mem, imm, snapshots, history, horizon := [], None, [], [], 0;
      flushed, immLog, log := 0, [], [];
      logFileNumber := 0;
      pendingOutputs := {};
    }

    /** A new log file, entered into the descriptor log. */
    method StartLog()
      requires Valid() && mem == [] && imm == None && log == [] && immLog == [] && flushed == |history|
      modifies this`logFileNumber, versions
      ensures Valid() && Durable()
    {
      hide *;
      ValidParts();
      logFileNumber := NewFileNumber();
      ValidParts();
      AllOnFile(versions.levels, history, horizon);
      WhatImmHolds(imm);
      InstallNothing(Edit(Some(logFileNumber), Some(0), None, None, [], {}, []));
      ValidParts();
      DurableParts();
    }

    /** The value of the key after the first `snapshot` writes. */
    method Get(key: UserKey, snapshot: nat) returns (value: Option<Bytes>)
      requires Valid() && horizon <= snapshot <= |history|
      ensures value == ValueAfter(history[..snapshot], key)
    {
      var m := Lookup(mem, key, snapshot);
      var i := Lookup(EntriesOf(imm), key, snapshot);
      var r: Option<Entry>;
      if m.Some? {
        r := m;
      } else if i.Some? {
        r := i;
      } else {
        r := Versions.Get(versions.levels, key, snapshot);
      }
      ghost var onDisk := if m.None? && i.None? then r else DiskAnswer(key, snapshot);
      SearchInOrder(mem, imm, versions.levels, key, snapshot, onDisk);
      assert ReadsRight(Contents(mem, imm, versions.levels), history, key, snapshot);
      value := Outcome(OpOf(r));
    }

    ghost function DiskAnswer(key: UserKey, snapshot: nat): (r: Option<Entry>)
      requires Valid()
      reads this, versions
      ensures Answers(StoredFrom(versions.levels, 0), key, snapshot, r)
    {
      FewerUnique(Contents(mem, imm, versions.levels), StoredFrom(versions.levels, 0), history);
      AnswerExists(StoredFrom(versions.levels, 0), key, snapshot);
      var r :| Answers(StoredFrom(versions.levels, 0), key, snapshot, r);
      r
    }

    /** MemTable::Add of one operation. */
    method Add(seqno: nat, w: Write, ghost levels: seq<seq<File>>)
      requires seqno == |history| + 1 < MAX_SEQUENCE_NUMBER
      requires PlacesOrdered(mem, imm, levels) && Faithful(Contents(mem, imm, levels), history, horizon)
      modifies this`mem, this`history
      ensures history == old(history) + [w] && mem == Insert(old(mem), Entry(w.key, seqno, w.op))
      ensures PlacesOrdered(mem, imm, levels) && Faithful(Contents(mem, imm, levels), history, horizon)
    {
      StoreWrite(mem, imm, levels, history, horizon, w);
      var e := Entry(w.key, seqno, w.op);
      mem := Insert(mem, e);
      history := history + [w];
    }

    /** WriteBatch::InsertInto: the operations get consecutive sequence numbers from `first`. */
    method InsertInto(first: nat, batch: seq<Write>, ghost levels: seq<seq<File>>)
      requires first == |history| + 1 && |history| + |batch| < MAX_SEQUENCE_NUMBER
      requires PlacesOrdered(mem, imm, levels) && Faithful(Contents(mem, imm, levels), history, horizon)
      modifies this`mem, this`history
      ensures history == old(history) + batch
      ensures PlacesOrdered(mem, imm, levels) && Faithful(Contents(mem, imm, levels), history, horizon)
      ensures Elems(mem) == Elems(old(mem)) + Since(history, |old(history)|)
    {
      hide PlacesOrdered, Faithful, Contents, Insert, Since;
      NothingSince(history);
      var sequence := first;
      for i := 0 to |batch|
        invariant sequence == first + i && history == old(history) + batch[..i]
        invariant PlacesOrdered(mem, imm, levels) && Faithful(Contents(mem, imm, levels), history, horizon)
        invariant Elems(mem) == Elems(old(mem)) + Since(history, |old(history)|)
      {
        InsertedOnly(mem, Entry(batch[i].key, sequence, batch[i].op));
        SinceAppended(history, batch[i], |old(history)|);
        Add(sequence, batch[i], levels);
        sequence := sequence + 1;
        assert batch[..i + 1] == batch[..i] + [batch[i]];
      }
      assert batch[..|batch|] == batch;
    }

    /** The memtable part of a committed write; its record is in the log. */
    method ApplyBatch(batch: seq<Write>)
      requires Valid() && |history| + |batch| < MAX_SEQUENCE_NUMBER
      modifies this`mem, this`history, this`log, versions`lastSequence
      ensures Valid() && history == old(history) + batch && log == old(log) + [batch]
      ensures Elems(mem) == Elems(old(mem)) + Since(history, |old(history)|)
      ensures old(Durable()) ==> Durable()
    {
      hide *;
      ValidParts();
      DurableParts();
      log := log + [batch];
      InsertInto(versions.lastSequence + 1, batch, versions.levels);
      SetLastSequence(versions.lastSequence + |batch|);
      ValidParts();
      DurableParts();
      SnapshotsBelow(snapshots, horizon, |old(history)|, |history|);
      if old(Durable()) {
        CommitKeepsFiles(versions.levels, old(history), horizon, flushed, batch);
        CommitIsLogged(old(history), flushed, immLog, old(log), old(mem), imm, batch, mem);
      }
    }

    /** The full memtable becomes immutable and a new log file is started. */
    method SwitchMemtable()
      requires Valid() && imm.None?
      modifies this`mem, this`imm, this`logFileNumber, this`immLog, this`log, versions`nextFileNumber
      ensures Valid() && mem == [] && imm == Some(old(mem))
      ensures old(Durable()) ==> Durable()
    {
      hide *;
      ValidParts();
      DurableParts();
      if Durable() { SwitchMovesLog(history, flushed, immLog, log, mem); }
      logFileNumber := NewFileNumber();
      SwitchKeepsPlaces(mem, versions.levels);
      imm := Some(mem);
      mem := [];
      immLog := log;
      log := [];
      ValidParts();
      DurableParts();
    }

    /** NewFileNumber, which no table holds and no compaction has reserved. */
    method NewFileNumber() returns (n: nat)
      requires versions.Valid() && NumbersOk(versions.levels, Held(), versions.nextFileNumber)
      requires Reserved(Held(), versions.nextFileNumber, pendingOutputs)
      modifies versions`nextFileNumber
      ensures versions.Valid() && n == old(versions.nextFileNumber) && versions.nextFileNumber == n + 1
      ensures Held() == old(Held()) && NumbersOk(versions.levels, Held(), n)
      ensures NumbersOk(versions.levels, Held(), n + 1) && Reserved(Held(), n + 1, pendingOutputs)
      ensures n !in pendingOutputs && forall l :: 0 <= l < NUM_LEVELS ==> n !in Held()[l]
      ensures forall m: nat :: old(versions.Recorded(m)) ==> versions.Recorded(m)
    {
      hide NumbersOk, Reserved, VersionSet.Valid, VersionSet.Held, VersionSet.Recorded;
      n := versions.NewFileNumber();
      assert Held() == old(Held());
      NextNumberIsFree(versions.levels, Held(), n, pendingOutputs);
    }

    method SetLastSequence(s: nat)
      requires versions.Valid() && versions.lastSequence <= s
      modifies versions`lastSequence
      ensures versions.Valid() && versions.lastSequence == s && Held() == old(Held())
      ensures forall m: nat :: old(versions.Recorded(m)) ==> versions.Recorded(m)
    {
      hide VersionSet.Valid, VersionSet.Held, VersionSet.Recorded;
      versions.SetLastSequence(s);
      assert Held() == old(Held());
    }

    method GetSnapshot() returns (s: nat)
      requires Valid()
      modifies this`snapshots
      ensures Valid() && s == |history| && snapshots == old(snapshots) + [s]
      ensures old(Durable()) ==> Durable()
    {
      s := versions.lastSequence;
      snapshots := snapshots + [s];
    }

    method ReleaseSnapshot(i: nat)
      requires Valid() && i < |snapshots|
      modifies this`snapshots
      ensures Valid() && snapshots == old(snapshots)[..i] + old(snapshots)[i + 1..]
      ensures old(Durable()) ==> Durable()
    {
      snapshots := snapshots[..i] + snapshots[i + 1..];
    }

    /** The smallest sequence number any present or later reader may use. */
    function SmallestSnapshot(): (s: nat)
      requires Valid()
      reads this, versions
      ensures horizon <= s <= |history| && NoneBelow(snapshots, s)
    {
      if snapshots == [] then versions.lastSequence else snapshots[0]
    }

    /** Writes the immutable memtable to a table and installs it as deep as the levels allow. */
    method CompactMemTable(fileSize: seq<Entry> -> nat, maxGrandparentBytes: nat)
      requires Valid() && imm.Some?
      modifies this`imm, this`flushed, this`immLog, versions
      ensures Valid() && imm == None && |old(versions.levels)| == NUM_LEVELS
      ensures old(Durable()) ==> Durable()
      ensures Flushed(old(versions.levels), old(imm.value), maxGrandparentBytes, versions.levels)
      ensures Stored() == old(Stored())
    {
      hide *;
      ValidParts();
      DurableParts();
      WhatImmHolds(imm);
      ghost var before := versions.levels;
      InstallMemTable(fileSize, maxGrandparentBytes);
      if old(Durable()) {
        FlushServesMore(before, history, horizon, flushed, immLog, log, mem, imm, versions.levels);
      }
      flushed, immLog, imm := flushed + |Concat(immLog)|, [], None;
      ValidParts();
      DurableParts();
    }

    /**
     Builds the table and enters it into the version, together with the number of the
     log that is needed from now on.
     */
    method InstallMemTable(fileSize: seq<Entry> -> nat, maxGrandparentBytes: nat)
      requires Valid() && imm.Some?
      modifies versions
      ensures versions.Valid() && PlacesOrdered(mem, None, versions.levels) && |old(versions.levels)| == NUM_LEVELS
      ensures Flushed(old(versions.levels), imm.value, maxGrandparentBytes, versions.levels)
      ensures StoredFrom(versions.levels, 0) == old(StoredFrom(versions.levels, 0)) + Elems(imm.value)
      ensures Contents(mem, None, versions.levels) == old(Stored()) && Faithful(old(Stored()), history, horizon)
      ensures versions.lastSequence == |history| < MAX_SEQUENCE_NUMBER
      ensures versions.logNumber == logFileNumber < versions.nextFileNumber
      ensures NumbersOk(versions.levels, Held(), versions.nextFileNumber)
      ensures Reserved(Held(), versions.nextFileNumber, pendingOutputs)
      ensures forall n: nat :: n <= |history| ==> versions.Recorded(n)
    {
      hide VersionSet.Valid, VersionSet.Held, VersionSet.Recorded, PlacesOrdered, Faithful, Contents, NumbersOk,
           Reserved, SnapshotsOrdered, Clear, PassesBy, Added, StoredFrom;
      LevelsAreValid(mem, imm, versions.levels, history, horizon);
      var entries := imm.value;
      var number := NewFileNumber();
      var edit := Edit(Some(logFileNumber), Some(0), None, None, [], {}, []);
      if entries == [] {
        // An empty table file is deleted and not recorded.
        NothingStored(versions.levels, entries);
        InstallNothing(edit);
        return;
      }
      var f := File(number, fileSize(entries), entries);
      FlushedFile(mem, imm, versions.levels, history, horizon, f);
      var level := PickLevelForMemTableOutput(versions.levels, f.Smallest().user, f.Largest().user,
                                              maxGrandparentBytes);
      edit := edit.(added := [(level, f)]);
      InstallFlush(edit, level, f);
    }

    method InstallNothing(edit: Edit)
      requires Valid() && EntriesOf(imm) == []
      requires edit == Edit(Some(logFileNumber), Some(0), None, None, [], {}, [])
      modifies versions
      ensures versions.Valid() && versions.levels == old(versions.levels) && PlacesOrdered(mem, None, versions.levels)
      ensures Contents(mem, None, versions.levels) == old(Stored()) && Faithful(old(Stored()), history, horizon)
      ensures versions.lastSequence == |history| && versions.logNumber <= logFileNumber < versions.nextFileNumber
      ensures NumbersOk(versions.levels, Held(), versions.nextFileNumber)
      ensures Reserved(Held(), versions.nextFileNumber, pendingOutputs)
      ensures versions.logNumber == logFileNumber && forall n: nat :: n <= |history| ==> versions.Recorded(n)
    {
      hide *;
      ValidParts();
      ghost var before, held := versions.levels, Held();
      NothingIsFresh(held, edit);
      versions.LevelsAreLists();
      Install(edit);
      NothingEdited(before, edit, versions.levels);
      NoNumberAdded(held, edit, Held());
      WithoutImm(mem, imm, versions.levels);
      NumbersRecorded();
    }

    /** What LogAndApply has just recorded covers everything so far. */
    lemma NumbersRecorded()
      requires versions.Valid() && versions.manifest != [] && versions.logNumber < versions.nextFileNumber
      requires LastRecorded(versions.manifest, NEXT_FILE_NUMBER) == Some(versions.nextFileNumber)
      requires LastRecorded(versions.manifest, LAST_SEQUENCE) == Some(versions.lastSequence)
      requires NumbersOk(versions.levels, Held(), versions.nextFileNumber)
      ensures forall n: nat :: n <= versions.lastSequence ==> versions.Recorded(n)
    {
      forall l, n | 0 <= l < NUM_LEVELS && n in versions.Held(l) ensures n < versions.nextFileNumber {
        assert n in Held()[l];
      }
    }

    method InstallFlush(edit: Edit, level: nat, f: File)
      requires Valid() && imm.Some? && f.entries == imm.value && ValidFile(f) && level < NUM_LEVELS
      requires edit == Edit(Some(logFileNumber), Some(0), None, None, [], {}, [(level, f)])
      requires f.number + 1 == versions.nextFileNumber && forall l :: 0 <= l < NUM_LEVELS ==> f.number !in Held()[l]
      requires NumbersOk(versions.levels, Held(), f.number) && f.number !in pendingOutputs
      requires level > 0 ==> forall l :: 0 <= l <= level ==>
                 Clear(versions.levels[l], f.Smallest().user, f.Largest().user)
      modifies versions
      ensures versions.Valid() && PlacesOrdered(mem, None, versions.levels)
      ensures PlacedAt(old(versions.levels), level, f, versions.levels)
      ensures Contents(mem, None, versions.levels) == old(Stored()) && Faithful(old(Stored()), history, horizon)
      ensures versions.lastSequence == |history| && versions.logNumber <= logFileNumber < versions.nextFileNumber
      ensures NumbersOk(versions.levels, Held(), versions.nextFileNumber)
      ensures Reserved(Held(), versions.nextFileNumber, pendingOutputs)
      ensures StoredFrom(versions.levels, 0) == old(StoredFrom(versions.levels, 0)) + Elems(f.entries)
      ensures versions.logNumber == logFileNumber && forall n: nat :: n <= |history| ==> versions.Recorded(n)
    {
      hide VersionSet.Valid, VersionSet.Held, PlacesOrdered, Faithful, Contents, NumbersOk, Reserved, SnapshotsOrdered,
           Clear, Added, Edited, HeldAfter, FreshIn, ValidFile, StoredFrom, VersionSet.Recorded;
      ghost var before, held := versions.levels, Held();
      versions.FilesHaveOwnNumbers();
      FlushIsFresh(held, edit, level, f);
      Install(edit);
      EditAddsFile(before, level, f, edit, versions.levels);
      OneNumberAdded(held, edit, level, f, Held());
      FlushKeepsPlaces(mem, imm.value, before, held, history, horizon, level, f, versions.levels);
      FlushNumbers(before, held, level, f, versions.levels, Held());
      NumberTaken(held, level, {f.number}, versions.nextFileNumber, pendingOutputs, Held());
      NumbersRecorded();
    }

    /**
     A single input file that meets nothing below is re-filed one level down
     without rewriting it. The code does so even when the file's last user key
     goes on in the next file; the invariant survives exactly when it does not.
     */
    method TrivialMove(level: nat, f: File)
      requires Valid() && Picked(versions.levels, MoveOf(level, f))
      modifies versions
      ensures versions.Valid() && Replaced(old(versions.levels), MoveOf(level, f), [f], versions.levels)
      ensures Valid() <==> level == 0 || BoundaryClear(old(versions.levels)[level], [f])
      ensures old(Durable()) ==> Durable()
    {
      hide VersionSet.Valid, VersionSet.Held, VersionSet.Recorded, LogsHold, FilesServe, StoredFrom, IsSetUp,
           BoundaryClear, PlacesOrdered, SnapshotsOrdered, Replaced, Edited, Faithful, Reserved, NumbersOk, FreshIn,
           ValidEdit, HeldAfter, ValidLevels, TreeInv, Contents, FromHistory;
      ghost var before, held, next := versions.levels, Held(), versions.nextFileNumber;
      versions.FilesHaveOwnNumbers();
      MovedIsInput(mem, imm, before, level, f, history, horizon);
      var edit := Edit(None, None, None, None, [(level, f.Largest())], {(level, f.number)}, [(level + 1, f)]);
      MoveIsFresh(before, held, next, level, f, edit);
      Install(edit);
      ghost var after := versions.levels;
      MoveEdit(before, level, f, edit, after);
      MoveIsExact(mem, imm, before, level, f, after, history, horizon);
      OneNumberAdded(held, edit, level + 1, f, Held());
      MoveNumbers(before, held, next, level, f, after, Held());
      MovedNumberIsNotReserved(before, held, level, f, next, pendingOutputs, Held());
      NumbersRecorded();
      SameFilesServe(before, after, history, horizon, flushed);
      if old(Durable()) { FlushedBefore(history, flushed, immLog, log, mem, imm); }
    }

    /**
     A whole compaction, while other work goes on. `now` names the levels it is
     installed on. Afterwards the invariant holds exactly if the inputs were
     harmless when it started and no output spans a file flushed since. That can
     only happen above the level below which no memtable is filed, and only by a
     flush into a gap between the inputs.
     */
    method RunCompaction(p: Pick, stopBefore: nat -> bool, bigEnough: seq<Entry> -> bool, fileSize: seq<Entry> -> nat,
                         during: seq<Concurrent>)
      returns (ghost input: seq<Entry>, outputs: seq<File>, ghost now: seq<seq<File>>)
      requires Valid() && Picked(versions.levels, p)
      modifies this, versions
      ensures versions.Valid() && horizon == old(SmallestSnapshot()) && |now| == NUM_LEVELS
      ensures history == old(history) + Committed(during, |old(history)|)
      ensures Rewritten(old(versions.levels), p, input, horizon, outputs)
      ensures Grown(old(versions.levels), now) && Replaced(now, p, outputs, versions.levels)
      ensures Valid() <==>
              old(Harmless(Stored(), versions.levels, p, SmallestSnapshot()))
              && NoneSpanned(old(versions.levels)[p.level + 1], now[p.level + 1], outputs)
      ensures p.level >= MAX_MEM_COMPACT_LEVEL || Connected(p.inputs0 + p.inputs1)
              || (forall j :: 0 <= j < |during| ==> !during[j].Flush?) ==>
                NoneSpanned(old(versions.levels)[p.level + 1], now[p.level + 1], outputs)
      ensures old(Durable()) ==> (Durable() <==> NoneRevived(StoredFrom(now, 0), old(versions.levels), p, horizon))
      ensures old(NoneRevived(StoredFrom(versions.levels, 0), versions.levels, p, SmallestSnapshot())) ==>
                NoneRevived(StoredFrom(now, 0), old(versions.levels), p, horizon)
      ensures (forall j :: 0 <= j < |during| ==> !during[j].Flush?) ==> now == old(versions.levels)
    {
      hide *;
      ValidParts();
      ghost var levels := versions.levels;
      PickedFacts(levels, p);
      ghost var start := Stored();
      var oldest;
      input, outputs, oldest :=
        StartCompaction(p, stopBefore, bigEnough, fileSize);
      NotGrown(levels);
      NothingAdded(levels[p.level + 1], p.inputs0 + p.inputs1);
      NothingCommitted(during, |history|);
      for i := 0 to |during|
        invariant Valid() && horizon == old(horizon) && (old(Durable()) ==> Durable())
        invariant (forall j :: 0 <= j < i ==> !during[j].Flush?) ==> versions.levels == levels
        invariant history == old(history) + Committed(during[..i], |old(history)|)
        invariant Grown(levels, versions.levels) && |versions.levels| == NUM_LEVELS
        invariant AddedClear(levels[p.level + 1], versions.levels[p.level + 1], p.inputs0 + p.inputs1)
        invariant p.level >= MAX_MEM_COMPACT_LEVEL || (forall j :: 0 <= j < i ==> !during[j].Flush?) ==>
                    NothingNew(levels[p.level + 1], versions.levels[p.level + 1])
        invariant horizon <= oldest <= |history| && NoneBelow(snapshots, oldest)
        invariant Numbers(FileSet(outputs)) <= pendingOutputs
        invariant forall e: Entry :: e.seqno <= oldest ==> (e in start <==> e in Stored())
      {
        ghost var before := versions.levels;
        ghost var full := imm;
        ImmIsNewer();
        WhatImmHolds(full);
        OneMoreCommitted(during, i, |old(history)|);
        Concurrently(during[i]);
        if versions.levels != before {
          FlushGrowsClear(levels, before, p, full.value, during[i].maxGrandparentBytes, versions.levels);
        }
      }
      assert during[..|during|] == during;
      ValidParts();
      now := versions.levels;
      ImmIsNewer();
      LaterWritesDoNotMatter(start, Stored(), levels, p, oldest);
      GrownRevivesNoMore(levels, now, p, oldest);
      OutputsAreValid(mem, imm, levels, now, p, history, horizon, input, oldest, outputs);
      OutputsFitWhen(levels, now, p, input, oldest, outputs);
      InstallCompactionResults(levels, p, input, oldest, outputs);
    }

    /**
     One step of other work; a write that does not fit, a switch that must wait, an
     unknown snapshot or nothing to flush is no step.
     */
    method Concurrently(step: Concurrent)
      requires Valid()
      modifies this`mem, this`imm, this`logFileNumber, this`snapshots, this`history
      modifies this`flushed, this`immLog, this`log, versions
      ensures Valid() && history == old(history) + CommittedBy(step, |old(history)|)
      ensures old(Durable()) ==> Durable()
      ensures |old(versions.levels)| == NUM_LEVELS
      ensures match step
              case Commit(batch) =>
                && imm == old(imm) && snapshots == old(snapshots)
                && Elems(mem) == Elems(old(mem)) + Since(history, |old(history)|)
                && (|old(history)| + |batch| < MAX_SEQUENCE_NUMBER ==> log == old(log) + [batch])
              case FillMemtable =>
                && snapshots == old(snapshots)
                && if old(imm).None? then mem == [] && imm == Some(old(mem)) else mem == old(mem) && imm == old(imm)
              case TakeSnapshot => mem == old(mem) && imm == old(imm) && snapshots == old(snapshots) + [|history|]
              case DropSnapshot(i) =>
                mem == old(mem) && imm == old(imm) && snapshots == WithoutSnapshot(old(snapshots), i)
              case Flush(_, maxBytes) =>
                && mem == old(mem) && imm == None && snapshots == old(snapshots)
                && (old(imm).Some? ==> Flushed(old(versions.levels), old(imm).value, maxBytes, versions.levels))
      ensures forall e: Entry :: e.seqno <= |old(history)| ==> (e in Stored() <==> e in old(Stored()))
      ensures forall low: nat :: low <= |old(history)| && NoneBelow(old(snapshots), low) ==> NoneBelow(snapshots, low)
      ensures versions.levels != old(versions.levels) ==>
                step.Flush? && old(imm).Some?
    {
      hide VersionSet.Valid, VersionSet.Held, PlacesOrdered, Faithful, SnapshotsOrdered, NumbersOk, Reserved, Flushed;
      NothingSince(history);
      ImmIsNewer();
      match step
      case Commit(batch) =>
        if versions.lastSequence + |batch| < MAX_SEQUENCE_NUMBER {
          ApplyBatch(batch);
        }
      case FillMemtable =>
        if imm.None? {
          SwitchMemtable();
        }
      case TakeSnapshot =>
        var _ := GetSnapshot();
      case DropSnapshot(i) =>
        if i < |snapshots| {
          ReleaseSnapshot(i);
        }
      case Flush(fileSize, maxGrandparentBytes) =>
        if imm.Some? {
          CompactMemTable(fileSize, maxGrandparentBytes);
        }
    }

    /** Chooses the smallest snapshot, merges the inputs and reserves the outputs' numbers. */
    method StartCompaction(p: Pick, stopBefore: nat -> bool, bigEnough: seq<Entry> -> bool, fileSize: seq<Entry> -> nat)
      returns (ghost input: seq<Entry>, outputs: seq<File>, oldest: nat)
      requires Valid() && Picked(versions.levels, p)
      modifies this`pendingOutputs, versions`nextFileNumber
      ensures Valid() && oldest == old(SmallestSnapshot()) && Stored() == old(Stored())
      ensures Rewritten(versions.levels, p, input, oldest, outputs) && ByNumber(outputs)
      ensures pendingOutputs == old(pendingOutputs) + Numbers(FileSet(outputs))
      ensures old(Durable()) ==> Durable()
    {
      hide VersionSet.Valid, VersionSet.Held, VersionSet.Recorded, LogsHold, FilesServe, Picked, PlacesOrdered,
           Faithful, Rewritten, SnapshotsOrdered, NumbersOk, Reserved, Numbered, ByNumber;
      ghost var held, first := Held(), versions.nextFileNumber;
      oldest := SmallestSnapshot();
      input, outputs := MergeInputs(p, oldest, stopBefore, bigEnough, fileSize);
      versions.NewFileNumbers(|outputs|);
      pendingOutputs := pendingOutputs + (set f | f in outputs :: f.number);
      assert Held() == held;
      NumbersOf(outputs);
      NumbersReserved(versions.levels, held, first, outputs);
    }

    /** DoCompactionWork over the merged inputs. */
    method MergeInputs(p: Pick, oldest: nat, stopBefore: nat -> bool, bigEnough: seq<Entry> -> bool,
                       fileSize: seq<Entry> -> nat)
      returns (ghost input: seq<Entry>, outputs: seq<File>)
      requires Valid() && Picked(versions.levels, p) && oldest <= |history|
      ensures Rewritten(versions.levels, p, input, oldest, outputs)
      ensures Numbered(outputs, versions.nextFileNumber)
    {
      hide *;
      ValidParts();
      var merged := MergeAll(p.inputs0 + p.inputs1);
      MergeIsReady(mem, imm, versions.levels, p, history, horizon);
      var c := new Compaction(versions.levels, p.level);
      outputs := DoCompactionWork(c, merged, oldest, versions.nextFileNumber, stopBefore, bigEnough, fileSize);
      input := merged;
      RewrittenFrom(versions.levels, p, input, oldest, outputs);
    }

    /**
     Installs the outputs of a merge that began on `start`, when `oldest` was the
     smallest snapshot, whatever was written, flushed or taken as a snapshot since.
     */
    method InstallCompactionResults(ghost start: seq<seq<File>>, p: Pick, ghost input: seq<Entry>, oldest: nat,
                                    outputs: seq<File>)
      requires Valid() && Picked(start, p) && Grown(start, versions.levels)
      requires horizon <= oldest <= |history| && NoneBelow(snapshots, oldest)
      requires Rewritten(start, p, input, oldest, outputs)
      requires ByNumber(outputs) && Numbers(FileSet(outputs)) <= pendingOutputs
      modifies versions, this`horizon, this`pendingOutputs
      ensures versions.Valid() && horizon == oldest && pendingOutputs == old(pendingOutputs) - Numbers(FileSet(outputs))
      ensures Replaced(old(versions.levels), p, outputs, versions.levels)
      ensures Valid() <==>
              old(Harmless(Stored(), start, p, oldest))
              && Fits(old(versions.levels)[p.level + 1], p.inputs1, outputs)
      ensures old(Durable()) ==> (Durable() <==> NoneRevived(old(StoredFrom(versions.levels, 0)), start, p, oldest))
    {
      hide *;
      ghost var now := versions.levels;
      ValidParts();
      DurableParts();
      OutputsAreValid(mem, imm, start, now, p, history, horizon, input, oldest, outputs);
      InstallOutputs(p, outputs);
      DatabaseExact(mem, imm, start, now, p, input, oldest, outputs, versions.levels, history, horizon);
      SnapshotsFrom(snapshots, horizon, oldest, |history|);
      if old(Durable()) {
        FilesServeExact(start, now, p, input, oldest, outputs, versions.levels, history, horizon, flushed);
        FlushedBefore(history, flushed, immLog, log, mem, imm);
      }
      NumbersOf(outputs);
      horizon := oldest;
      pendingOutputs := pendingOutputs - (set f | f in outputs :: f.number);
      ValidParts();
      DurableParts();
    }

    /** The full memtable is newer than the files. */
    lemma ImmIsNewer()
      requires Valid()
      ensures NewerThan(Elems(EntriesOf(imm)), StoredFrom(versions.levels, 0))
      ensures |versions.levels| == NUM_LEVELS && ValidLevels(versions.levels)
    {
    }

    /** The edit of a compaction: delete the inputs, add the outputs one level down. */
    method InstallOutputs(p: Pick, outputs: seq<File>)
      requires versions.Valid() && p.level + 1 < NUM_LEVELS && ValidFiles(outputs)
      requires versions.logNumber < versions.nextFileNumber
      requires NumbersOk(versions.levels, Held(), versions.nextFileNumber)
      requires Reserved(Held(), versions.nextFileNumber, pendingOutputs)
      requires ByNumber(outputs) && Numbers(FileSet(outputs)) <= pendingOutputs
      requires forall f :: f in p.inputs0 ==> f in versions.levels[p.level]
      requires forall f :: f in p.inputs1 ==> f in versions.levels[p.level + 1]
      modifies versions
      ensures versions.Valid() && Replaced(old(versions.levels), p, outputs, versions.levels)
      ensures NumbersOk(versions.levels, Held(), versions.nextFileNumber)
      ensures Reserved(Held(), versions.nextFileNumber, pendingOutputs - Numbers(FileSet(outputs)))
      ensures versions.lastSequence == old(versions.lastSequence) && versions.logNumber == old(versions.logNumber)
      ensures versions.nextFileNumber == old(versions.nextFileNumber)
      ensures forall n: nat :: n <= versions.lastSequence ==> versions.Recorded(n)
    {
      ghost var before, held, next := versions.levels, Held(), versions.nextFileNumber;
      var edit := Edit(None, None, None, None, [(p.level, p.largest)],
                       DeletionsOf(p.level, p.inputs0) + DeletionsOf(p.level + 1, p.inputs1),
                       AdditionsOf(p.level + 1, outputs));
      NewOutputsFresh(before, held, next, pendingOutputs, p, outputs, edit);
      Install(edit);
      EditReplaces(before, p, outputs, edit, versions.levels);
      OutputNumbers(before, held, next, pendingOutputs, p, outputs, edit, versions.levels, Held());
      NumbersRecorded();
    }

    /** LogAndApply, with what the levels hold and ever held spelled out. */
    method Install(edit: Edit)
      requires versions.Valid() && ValidEdit(edit)
      requires edit.logNumber.Some? ==> versions.logNumber <= edit.logNumber.value < versions.nextFileNumber
      requires forall l :: 0 <= l < NUM_LEVELS ==> FreshIn(Held()[l], edit, l)
      modifies versions
      ensures versions.Valid() && Edited(old(versions.levels), edit, versions.levels)
      ensures HeldAfter(old(Held()), edit, Held())
      ensures versions.lastSequence == old(versions.lastSequence)
      ensures versions.nextFileNumber == old(versions.nextFileNumber)
      ensures versions.logNumber == if edit.logNumber.Some? then edit.logNumber.value else old(versions.logNumber)
      ensures versions.manifest != []
      ensures LastRecorded(versions.manifest, NEXT_FILE_NUMBER) == Some(versions.nextFileNumber)
      ensures LastRecorded(versions.manifest, LAST_SEQUENCE) == Some(versions.lastSequence)
    {
      forall l | 0 <= l < NUM_LEVELS ensures FreshIn(versions.Held(l), edit, l) {
        assert Held()[l] == versions.Held(l);
      }
      versions.LogAndApply(edit);
      forall l | 0 <= l < NUM_LEVELS ensures Held()[l] == old(Held())[l] + Numbers(AddedAt(edit, l)) {
        assert Held()[l] == versions.Held(l) && old(Held())[l] == old(versions.Held(l));
      }
    }
  }

  /** Output files hold something and got their numbers one after the other. */
  predicate ByNumber(outputs: seq<File>) {
    && (forall i :: 0 <= i < |outputs| ==> outputs[i].entries != [])
    && (forall i, j :: 0 <= i < j < |outputs| ==> outputs[i].number < outputs[j].number)
  }

  predicate NoneBelow(snapshots: seq<nat>, low: nat) {
    forall i :: 0 <= i < |snapshots| ==> low <= snapshots[i]
  }

  /** Numbers given to files still being written are out of use but held nowhere. */
  ghost predicate Reserved(held: seq<set<nat>>, next: nat, pending: set<nat>) {
    forall n :: n in pending ==> n < next && forall l :: 0 <= l < |held| ==> n !in held[l]
  }

  lemma NumberTaken(held: seq<set<nat>>, at: nat, taken: set<nat>, next: nat, pending: set<nat>, held': seq<set<nat>>)
    requires Reserved(held, next, pending) && |held| == |held'| == NUM_LEVELS
    requires forall l :: 0 <= l < NUM_LEVELS ==> held'[l] == if l == at then held[l] + taken else held[l]
    ensures Reserved(held', next, pending - taken)
    ensures pending !! taken ==> Reserved(held', next, pending)
  {
  }

  lemma MovedNumberIsNotReserved(levels: seq<seq<File>>, held: seq<set<nat>>, level: nat, f: File, next: nat,
                                 pending: set<nat>, held': seq<set<nat>>)
    requires NumbersOk(levels, held, next) && Reserved(held, next, pending) && level + 1 < NUM_LEVELS
    requires f in levels[level]
    requires |held'| == NUM_LEVELS
    requires forall l :: 0 <= l < NUM_LEVELS ==> held'[l] == if l == level + 1 then held[l] + {f.number} else held[l]
    ensures Reserved(held', next, pending)
  {
    assert f.number in held[level];
    NumberTaken(held, level + 1, {f.number}, next, pending, held');
  }

  lemma NumbersReserved(levels: seq<seq<File>>, held: seq<set<nat>>, first: nat, outputs: seq<File>)
    requires NumbersOk(levels, held, first) && Numbered(outputs, first)
    ensures ByNumber(outputs) && NumbersOk(levels, held, first + |outputs|)
    ensures forall pending :: Reserved(held, first, pending) ==>
              Reserved(held, first + |outputs|, pending + Numbers(FileSet(outputs)))
  {
    forall n | n in Numbers(FileSet(outputs)) ensures first <= n < first + |outputs| {
      var f :| f in FileSet(outputs) && f.number == n;
      var i :| 0 <= i < |outputs| && outputs[i] == f;
    }
  }

  lemma NumbersOf(files: seq<File>)
    ensures (set f | f in files :: f.number) == Numbers(FileSet(files))
  {
    forall n | n in (set f | f in files :: f.number) ensures n in Numbers(FileSet(files)) {
      var f :| f in files && f.number == n;
      assert f in FileSet(files);
    }
  }

  lemma SnapshotsBelow(snapshots: seq<nat>, low: nat, high: nat, high': nat)
    requires SnapshotsOrdered(snapshots, low, high) && high <= high'
    ensures SnapshotsOrdered(snapshots, low, high')
  {
  }

  lemma SnapshotsFrom(snapshots: seq<nat>, low: nat, low': nat, high: nat)
    requires SnapshotsOrdered(snapshots, low, high) && NoneBelow(snapshots, low')
    ensures SnapshotsOrdered(snapshots, low', high)
  {
  }

  lemma InsertedOnly(mem: seq<Entry>, e: Entry)
    ensures Elems(Insert(mem, e)) == Elems(mem) + iset{e}
  {
    var i := SeekPos(mem, e.Ikey());
    assert mem == mem[..i] + mem[i..];
  }

  ghost predicate HeldAfter(held: seq<set<nat>>, e: Edit, held': seq<set<nat>>) {
    && |held| == |held'| == NUM_LEVELS
    && forall l :: 0 <= l < NUM_LEVELS ==> held'[l] == held[l] + Numbers(AddedAt(e, l))
  }

  lemma NothingIsFresh(held: seq<set<nat>>, e: Edit)
    requires e.added == [] && e.deleted == {} && e.compactPointers == [] && |held| == NUM_LEVELS
    ensures ValidEdit(e) && forall l :: 0 <= l < NUM_LEVELS ==> FreshIn(held[l], e, l)
  {
    forall l | 0 <= l < NUM_LEVELS ensures FreshIn(held[l], e, l) && AddedAt(e, l) == {} {}
  }

  lemma NothingEdited(levels: seq<seq<File>>, e: Edit, levels': seq<seq<File>>)
    requires Edited(levels, e, levels') && e.added == [] && e.deleted == {}
    requires forall l :: 0 <= l < NUM_LEVELS ==> Lists(levels[l], FileSet(levels[l]))
    ensures levels' == levels
  {
    forall l | 0 <= l < NUM_LEVELS ensures levels'[l] == levels[l] {
      assert EditLevel(FileSet(levels[l]), e, l) == FileSet(levels[l]);
      ListsUnique(levels'[l], levels[l], FileSet(levels[l]));
    }
  }

  lemma WithoutImm(mem: seq<Entry>, imm: Option<seq<Entry>>, levels: seq<seq<File>>)
    requires EntriesOf(imm) == []
    ensures PlacesOrdered(mem, None, levels) <==> PlacesOrdered(mem, imm, levels)
    ensures Contents(mem, None, levels) == Contents(mem, imm, levels)
  {
  }

  lemma NoNumberAdded(held: seq<set<nat>>, e: Edit, held': seq<set<nat>>)
    requires HeldAfter(held, e, held') && e.added == []
    ensures held' == held
  {
    forall l | 0 <= l < NUM_LEVELS ensures held'[l] == held[l] { assert AddedAt(e, l) == {}; }
  }

  lemma OneNumberAdded(held: seq<set<nat>>, e: Edit, level: nat, f: File, held': seq<set<nat>>)
    requires HeldAfter(held, e, held') && e.added == [(level, f)]
    ensures forall l :: 0 <= l < NUM_LEVELS ==> held'[l] == if l == level then held[l] + {f.number} else held[l]
  {
    forall l | 0 <= l < NUM_LEVELS ensures held'[l] == if l == level then held[l] + {f.number} else held[l] {
      AddedOnly(e, level, f, l);
    }
  }

  lemma EmptyTree(levels: seq<seq<File>>)
    requires levels == seq(NUM_LEVELS, _ => [])
    ensures PlacesOrdered([], None, levels) && Faithful(Contents([], None, levels), [], 0)
    ensures forall l :: 0 <= l < NUM_LEVELS ==> levels[l] == []
  {
    forall e ensures !InLevels(levels, 0, e) {
      forall l | 0 <= l < |levels| ensures !InFiles(levels[l], e) {}
    }
  }

  lemma FewerUnique(s: iset<Entry>, fewer: iset<Entry>, h: History)
    requires FromHistory(s, h) && fewer <= s
    ensures UniqueVersions(fewer)
  {
    FromHistoryUnique(s, h);
  }

  lemma SwitchKeepsPlaces(mem: seq<Entry>, levels: seq<seq<File>>)
    requires PlacesOrdered(mem, None, levels)
    ensures PlacesOrdered([], Some(mem), levels)
    ensures Contents([], Some(mem), levels) == Contents(mem, None, levels)
  {
  }

  lemma LevelsAreValid(mem: seq<Entry>, imm: Option<seq<Entry>>, levels: seq<seq<File>>, h: History, horizon: nat)
    requires PlacesOrdered(mem, imm, levels) && Faithful(Contents(mem, imm, levels), h, horizon)
    ensures ValidLevels(levels) && |h| < MAX_SEQUENCE_NUMBER
  {
  }

  lemma FlushedFile(mem: seq<Entry>, imm: Option<seq<Entry>>, levels: seq<seq<File>>, h: History, horizon: nat, f: File)
    requires PlacesOrdered(mem, imm, levels) && Faithful(Contents(mem, imm, levels), h, horizon)
    requires imm.Some? && f.entries == imm.value && imm.value != []
    ensures ValidFile(f)
  {
    forall e | e in f.entries ensures e.seqno <= MAX_SEQUENCE_NUMBER { assert e in Contents(mem, imm, levels); }
  }

  lemma AddedOnly(e: Edit, level: nat, f: File, l: nat)
    requires e.added == [(level, f)]
    ensures AddedAt(e, l) == if l == level then {f} else {}
  {
    assert (level, f) in e.added;
  }

  lemma FreshAddition(held: set<nat>, e: Edit, level: nat, f: File, l: nat)
    requires e.added == [(level, f)] && f.number !in held
    ensures FreshIn(held, e, l)
  {
    AddedOnly(e, level, f, l);
  }

  lemma NextNumberIsFree(levels: seq<seq<File>>, held: seq<set<nat>>, next: nat, pending: set<nat>)
    requires NumbersOk(levels, held, next) && Reserved(held, next, pending)
    ensures NumbersOk(levels, held, next + 1) && Reserved(held, next + 1, pending)
    ensures next !in pending && forall l :: 0 <= l < NUM_LEVELS ==> next !in held[l]
  {
  }

  lemma FlushIsFresh(held: seq<set<nat>>, e: Edit, level: nat, f: File)
    requires |held| == NUM_LEVELS && ValidFile(f) && level < NUM_LEVELS
    requires e.added == [(level, f)] && e.deleted == {} && e.compactPointers == []
    requires forall l :: 0 <= l < NUM_LEVELS ==> f.number !in held[l]
    ensures ValidEdit(e) && forall l :: 0 <= l < NUM_LEVELS ==> FreshIn(held[l], e, l)
  {
    forall l | 0 <= l < NUM_LEVELS ensures FreshIn(held[l], e, l) {
      FreshAddition(held[l], e, level, f, l);
    }
  }

  lemma FlushKeepsPlaces(mem: seq<Entry>, entries: seq<Entry>, levels: seq<seq<File>>, held: seq<set<nat>>, h: History,
                         horizon: nat, at: nat, f: File, levels': seq<seq<File>>)
    requires PlacesOrdered(mem, Some(entries), levels) && Faithful(Contents(mem, Some(entries), levels), h, horizon)
    requires f.entries == entries && PlacedAt(levels, at, f, levels') && NumbersOk(levels, held, f.number)
    ensures PlacesOrdered(mem, None, levels') && Contents(mem, None, levels') == Contents(mem, Some(entries), levels)
    ensures StoredFrom(levels', 0) == StoredFrom(levels, 0) + Elems(entries)
  {
    FlushKeepsTree(levels, at, f, levels');
    assert Elems(EntriesOf(None)) + StoredFrom(levels', 0) == Elems(entries) + StoredFrom(levels, 0);
  }

  lemma FlushNumbers(levels: seq<seq<File>>, held: seq<set<nat>>, at: nat, f: File, levels': seq<seq<File>>,
                     held': seq<set<nat>>)
    requires NumbersOk(levels, held, f.number) && at < NUM_LEVELS && Added(levels, at, f, levels')
    requires |held'| == NUM_LEVELS
    requires forall l :: 0 <= l < NUM_LEVELS ==> held'[l] == if l == at then held[l] + {f.number} else held[l]
    ensures NumbersOk(levels', held', f.number + 1)
  {
    forall l, g | 0 <= l < NUM_LEVELS && g in levels'[l] ensures g in levels[l] || (l == at && g == f) {
      assert g in FileSet(levels'[l]);
    }
    NewNumbersOk(levels, held, f.number, at, {f.number}, f.number + 1, levels', held');
  }

  // ---------- compaction ----------

  lemma LevelVersionsOrdered(mem: seq<Entry>, imm: Option<seq<Entry>>, levels: seq<seq<File>>, h: History, l: nat)
    requires ValidLevels(levels) && 1 <= l < NUM_LEVELS && FromHistory(Contents(mem, imm, levels), h)
    ensures VersionsOrdered(levels[l])
  {
    hide FromHistory, ValidFile, Disjoint, Less;
    FromHistoryUnique(Contents(mem, imm, levels), h);
    var files := levels[l];
    forall i, j | 0 <= i < j < |files| ensures VersionsOrderedAt(files, i, j) {
      forall e, x | e in files[i].entries && x in files[j].entries && e.key == x.key ensures e.seqno > x.seqno {
        assert files[i] in files && files[j] in files;
        assert InFiles(files, e) && InFiles(files, x);
        assert InLevels(levels, 0, e) && InLevels(levels, 0, x);
        EarlierFileFirst(files, i, j, e, x);
      }
    }
  }

  /** Of one key an earlier file's version is not the older one. */
  lemma EarlierFileFirst(files: seq<File>, i: nat, j: nat, e: Entry, x: Entry)
    requires ValidFiles(files) && Disjoint(files) && i < j < |files|
    requires e in files[i].entries && x in files[j].entries && e.key == x.key
    ensures e.seqno >= x.seqno && e != x
  {
    FileBounds(files[i], e);
    FileBounds(files[j], x);
  }

  lemma InputsAreDistinct(levels: seq<seq<File>>, level: nat, inputs1: seq<File>, smallest: InternalKey,
                          largest: InternalKey)
    requires ValidLevels(levels) && level + 1 < NUM_LEVELS
    requires inputs1 == MeetingRange(levels[level + 1], smallest, largest)
    ensures NoDup(inputs1)
  {
    var files := levels[level + 1];
    forall i, j | 0 <= i < j < |files| ensures files[i] != files[j] {
      FileBounds(files[i], files[i].entries[0]);
    }
    OverlappingMembers(files, Some(smallest.user), Some(largest.user));
  }

  lemma InputInContents(mem: seq<Entry>, imm: Option<seq<Entry>>, levels: seq<seq<File>>, p: Pick)
    requires |levels| == NUM_LEVELS && p.level + 1 < NUM_LEVELS
    requires forall f :: f in p.inputs0 ==> f in levels[p.level]
    requires forall f :: f in p.inputs1 ==> f in levels[p.level + 1]
    ensures forall e :: InInputs(p, e) ==> e in Contents(mem, imm, levels)
  {
    StoredBefore(levels, 0, p);
  }

  lemma MergeIsReady(mem: seq<Entry>, imm: Option<seq<Entry>>, levels: seq<seq<File>>, p: Pick, h: History,
                     horizon: nat)
    requires Faithful(Contents(mem, imm, levels), h, horizon) && Picked(levels, p)
    ensures ValidLevels(levels) && p.level + 1 < NUM_LEVELS && |h| < MAX_SEQUENCE_NUMBER
    ensures IsMerge(MergeAll(p.inputs0 + p.inputs1), p) && StrictInput(MergeAll(p.inputs0 + p.inputs1))
  {
    hide Picked, TreeInv, ValidLevels, Faithful, Contents, StoredFrom, Sorted, MergeAll, InInputs, FromHistory, NoDup,
         StrictInput;
    PickedSelects(levels, p);
    PickedFacts(levels, p);
    ContentsFacts(mem, imm, levels, h, horizon);
    InputsMerge(levels, p);
    MergedInputIsStrict(Contents(mem, imm, levels), h, levels, p, MergeAll(p.inputs0 + p.inputs1));
  }

  lemma PickedSelects(levels: seq<seq<File>>, p: Pick)
    requires Picked(levels, p)
    ensures TreeInv(levels) && ValidLevels(levels) && NoDup(p.inputs0) && NoDup(p.inputs1)
  {
    hide Recency, Disjoint;
    InputsAreDistinct(levels, p.level, p.inputs1, p.smallest, p.largest);
  }

  lemma ContentsFacts(mem: seq<Entry>, imm: Option<seq<Entry>>, levels: seq<seq<File>>, h: History, horizon: nat)
    requires Faithful(Contents(mem, imm, levels), h, horizon)
    ensures FromHistory(Contents(mem, imm, levels), h) && |h| < MAX_SEQUENCE_NUMBER
    ensures StoredFrom(levels, 0) <= Contents(mem, imm, levels)
  {
  }

  lemma RewrittenFrom(levels: seq<seq<File>>, p: Pick, input: seq<Entry>, oldest: nat, outputs: seq<File>)
    requires IsMerge(input, p) && Flatten(outputs) == Kept(input, |input|, oldest, levels, p.level + 2)
    ensures Rewritten(levels, p, input, oldest, outputs)
  {
  }

  lemma MergedInputIsStrict(s: iset<Entry>, h: History, levels: seq<seq<File>>, p: Pick, input: seq<Entry>)
    requires FromHistory(s, h) && IsMerge(input, p) && |levels| == NUM_LEVELS && p.level + 1 < NUM_LEVELS
    requires forall f :: f in p.inputs0 ==> f in levels[p.level]
    requires forall f :: f in p.inputs1 ==> f in levels[p.level + 1]
    requires StoredFrom(levels, 0) <= s
    ensures StrictInput(input)
  {
    StoredBefore(levels, 0, p);
    FromHistoryUnique(s, h);
    forall j, k | 0 <= j < k < |input| && input[j].key == input[k].key ensures input[j].seqno > input[k].seqno {
      assert input[j] in input && input[k] in input;
      assert Less(input[j].Ikey(), input[k].Ikey());
    }
  }

  lemma OutputsAreValid(mem: seq<Entry>, imm: Option<seq<Entry>>, levels: seq<seq<File>>, now: seq<seq<File>>, p: Pick,
                        h: History, horizon: nat, input: seq<Entry>, oldest: nat, outputs: seq<File>)
    requires Faithful(Contents(mem, imm, now), h, horizon) && Picked(levels, p)
    requires Grown(levels, now)
    requires Rewritten(levels, p, input, oldest, outputs) && ByNumber(outputs)
    ensures |now| == NUM_LEVELS && p.level + 1 < NUM_LEVELS && ValidFiles(outputs) && Disjoint(outputs)
    ensures forall f :: f in p.inputs0 ==> f in now[p.level]
    ensures forall f :: f in p.inputs1 ==> f in now[p.level + 1]
  {
    hide Picked, Kept, Faithful, Grown, InInputs, Contents, Sorted, Dropped, ValidFile, Disjoint, Flatten;
    StillPicked(levels, now, p);
    OutputVersions(levels, p, input, oldest, outputs);
    KeptIsUndropped(input, oldest, levels, p.level + 2);
    InputInContents(mem, imm, now, p);
    NumbersAreBounded(Contents(mem, imm, now), h, horizon);
    assert forall e :: e in input ==> InInputs(p, e);
    OutputsAreDisjoint(outputs);
  }

  lemma NumbersAreBounded(s: iset<Entry>, h: History, horizon: nat)
    requires Faithful(s, h, horizon)
    ensures forall e :: e in s ==> e.seqno <= MAX_SEQUENCE_NUMBER
  {
    hide ReadsRightFrom;
  }

  lemma OutputsFitWhen(levels: seq<seq<File>>, now: seq<seq<File>>, p: Pick, input: seq<Entry>, oldest: nat,
                       outputs: seq<File>)
    requires Picked(levels, p) && Grown(levels, now) && ValidLevels(now)
    requires Rewritten(levels, p, input, oldest, outputs)
    requires ValidFiles(outputs) && Disjoint(outputs)
    requires p.level + 1 < |levels| && AddedClear(levels[p.level + 1], now[p.level + 1], p.inputs0 + p.inputs1)
    ensures p.level + 1 < |now|
    ensures Fits(now[p.level + 1], p.inputs1, outputs) <==> NoneSpanned(levels[p.level + 1], now[p.level + 1], outputs)
    ensures Connected(p.inputs0 + p.inputs1) || NothingNew(levels[p.level + 1], now[p.level + 1]) ==>
              NoneSpanned(levels[p.level + 1], now[p.level + 1], outputs)
  {
    hide Picked, Grown, Rewritten, AddedClear, Fits, Connected, Spans;
    FitsExact(levels, now, p, input, oldest, outputs);
    if Connected(p.inputs0 + p.inputs1) {
      ConnectedSpanNone(levels, now, p, input, oldest, outputs);
    }
  }

  lemma NothingStored(levels: seq<seq<File>>, entries: seq<Entry>)
    requires entries == []
    ensures StoredFrom(levels, 0) + Elems(entries) == StoredFrom(levels, 0)
  {
  }

  lemma WhatImmHolds(imm: Option<seq<Entry>>)
    ensures EntriesOf(imm) == if imm.Some? then imm.value else []
  {
  }

  lemma NothingAdded(files: seq<File>, inputs: seq<File>)
    ensures AddedClear(files, files, inputs) && NothingNew(files, files)
  {
  }

  lemma NewOutputsFresh(levels: seq<seq<File>>, held: seq<set<nat>>, next: nat, pending: set<nat>, p: Pick,
                        outputs: seq<File>, e: Edit)
    requires NumbersOk(levels, held, next) && p.level + 1 < NUM_LEVELS && ByNumber(outputs)
    requires Reserved(held, next, pending) && Numbers(FileSet(outputs)) <= pending
    requires e.deleted == DeletionsOf(p.level, p.inputs0) + DeletionsOf(p.level + 1, p.inputs1)
    requires e.added == AdditionsOf(p.level + 1, outputs)
    ensures forall l :: 0 <= l < NUM_LEVELS ==> FreshIn(held[l], e, l)
  {
    EditFiles(p, outputs, e);
    forall l | 0 <= l < NUM_LEVELS ensures FreshIn(held[l], e, l) {
      forall n | n in Numbers(AddedAt(e, l)) ensures n !in held[l] {
        var f :| f in AddedAt(e, l) && f.number == n;
        assert f in FileSet(outputs);
      }
    }
  }

  lemma OutputNumbers(levels: seq<seq<File>>, held: seq<set<nat>>, next: nat, pending: set<nat>, p: Pick,
                      outputs: seq<File>, e: Edit, levels': seq<seq<File>>, held': seq<set<nat>>)
    requires NumbersOk(levels, held, next) && p.level + 1 < NUM_LEVELS
    requires Reserved(held, next, pending) && Numbers(FileSet(outputs)) <= pending
    requires e.deleted == DeletionsOf(p.level, p.inputs0) + DeletionsOf(p.level + 1, p.inputs1)
    requires e.added == AdditionsOf(p.level + 1, outputs)
    requires Replaced(levels, p, outputs, levels') && HeldAfter(held, e, held')
    ensures NumbersOk(levels', held', next) && Reserved(held', next, pending - Numbers(FileSet(outputs)))
  {
    EditFiles(p, outputs, e);
    ReplacedMembers(levels, p, outputs, levels');
    var numbers := Numbers(FileSet(outputs));
    forall l | 0 <= l < NUM_LEVELS ensures held'[l] == if l == p.level + 1 then held[l] + numbers else held[l] {}
    forall l, f | 0 <= l < NUM_LEVELS && f in levels'[l]
      ensures f in levels[l] || (l == p.level + 1 && f.number in numbers)
    {
      if f in outputs { assert f in FileSet(outputs); }
    }
    NewNumbersOk(levels, held, next, p.level + 1, numbers, next, levels', held');
    NumberTaken(held, p.level + 1, numbers, next, pending, held');
  }

  // ---------- trivial move ----------

  lemma MoveEdit(levels: seq<seq<File>>, level: nat, f: File, e: Edit, levels': seq<seq<File>>)
    requires Edited(levels, e, levels') && level + 1 < NUM_LEVELS && f in levels[level]
    requires forall l :: 0 <= l < NUM_LEVELS ==> NumbersIdentify(FileSet(levels[l]))
    requires e.deleted == {(level, f.number)} && e.added == [(level + 1, f)]
    ensures Replaced(levels, MoveOf(level, f), [f], levels')
  {
    assert DeletionsOf(level, [f]) == {(level, f.number)} by { assert f in [f]; }
    assert DeletionsOf(level + 1, []) == {};
    EditReplaces(levels, MoveOf(level, f), [f], e, levels');
  }

  lemma MovedIsInput(mem: seq<Entry>, imm: Option<seq<Entry>>, levels: seq<seq<File>>, level: nat, f: File, h: History,
                     horizon: nat)
    requires PlacesOrdered(mem, imm, levels) && level + 1 < NUM_LEVELS
    requires IsSetUp(levels, MoveOf(level, f))
    ensures f in levels[level] && ValidFile(f)
  {
    InputFacts(levels, MoveOf(level, f));
    assert [f][0] in [f];
  }

  lemma MoveIsFresh(levels: seq<seq<File>>, held: seq<set<nat>>, next: nat, level: nat, f: File, e: Edit)
    requires NumbersOk(levels, held, next) && level + 1 < NUM_LEVELS && f in levels[level] && ValidFile(f)
    requires e.added == [(level + 1, f)] && e.deleted == {(level, f.number)}
    requires forall i :: 0 <= i < |e.compactPointers| ==> e.compactPointers[i].0 == level
    ensures ValidEdit(e) && forall l :: 0 <= l < NUM_LEVELS ==> FreshIn(held[l], e, l)
  {
    forall l | 0 <= l < NUM_LEVELS ensures FreshIn(held[l], e, l) {
      if l == level + 1 {
        FreshAddition(held[l], e, level + 1, f, l);
      } else {
        AddedOnly(e, level + 1, f, l);
      }
    }
  }

  lemma MoveIsExact(mem: seq<Entry>, imm: Option<seq<Entry>>, levels: seq<seq<File>>, level: nat, f: File,
                    levels': seq<seq<File>>, h: History, horizon: nat)
    requires PlacesOrdered(mem, imm, levels) && Faithful(Contents(mem, imm, levels), h, horizon)
    requires level + 1 < NUM_LEVELS
    requires IsSetUp(levels, MoveOf(level, f))
    requires Replaced(levels, MoveOf(level, f), [f], levels')
    ensures Faithful(Contents(mem, imm, levels'), h, horizon) && StoredFrom(levels', 0) == StoredFrom(levels, 0)
    ensures PlacesOrdered(mem, imm, levels') <==> level == 0 || BoundaryClear(levels[level], [f])
  {
    hide IsSetUp, BoundaryClear, Recency, ReadsRightFrom, Sorted, ValidFile, Disjoint, Replaced, VersionsOrdered,
         DistinctNumbers;
    if level > 0 {
      LevelVersionsOrdered(mem, imm, levels, h, level);
    }
    TrivialMoveExact(levels, level, f, levels');
    InputFacts(levels, MoveOf(level, f));
    StoredBefore(levels, 0, MoveOf(level, f));
    StoredAfter(levels, 0, MoveOf(level, f), [f], levels');
    assert forall e :: InLevels(levels', 0, e) <==> InLevels(levels, 0, e);
    assert StoredFrom(levels', 0) == StoredFrom(levels, 0);
  }

  lemma MoveNumbers(levels: seq<seq<File>>, held: seq<set<nat>>, next: nat, level: nat, f: File,
                    levels': seq<seq<File>>, held': seq<set<nat>>)
    requires NumbersOk(levels, held, next) && level + 1 < NUM_LEVELS && f in levels[level]
    requires forall l :: 0 <= l < NUM_LEVELS ==> NumbersIdentify(FileSet(levels[l]))
    requires Replaced(levels, MoveOf(level, f), [f], levels') && |held'| == NUM_LEVELS
    requires forall l :: 0 <= l < NUM_LEVELS ==> held'[l] == if l == level + 1 then held[l] + {f.number} else held[l]
    ensures NumbersOk(levels', held', next)
  {
    assert f in [f];
    forall l, g | 0 <= l < NUM_LEVELS && g in levels'[l]
      ensures (g in levels[l] && !(l == level && g == f)) || (l == level + 1 && g == f)
    {
      ReplacedMember(levels, MoveOf(level, f), [f], levels', l, g);
    }
    MovedNumberOk(levels, held, next, level, f, levels', held');
  }

  /**
   Moving a file down keeps the recency rule exactly when its last user key does
   not continue in the next file: the check the code does not make above level 0.
   At level 0 the inputs of a move meet no other file.
   */
  lemma TrivialMoveExact(levels: seq<seq<File>>, level: nat, f: File,
                         levels': seq<seq<File>>)
    requires TreeInv(levels) && level + 1 < NUM_LEVELS
    requires IsSetUp(levels, MoveOf(level, f))
    requires Replaced(levels, MoveOf(level, f), [f], levels')
    requires level > 0 ==> VersionsOrdered(levels[level])
    ensures TreeInv(levels') <==> level == 0 || BoundaryClear(levels[level], [f])
  {
    InputFacts(levels, MoveOf(level, f));
    assert f in [f] && [f][0] in levels[level];
    if level == 0 {
      OverlapClosedIsClosed(levels[0], [f], f.Smallest(), f.Largest());
    } else {
      BoundaryClearIsClosed(levels[level], [f]);
    }
    assert forall e :: InFiles([f], e) ==> InInputs(MoveOf(level, f), e);
    MoveTreeExact(levels, MoveOf(level, f), [f], levels');
    assert NewerThanOutputs(levels[level], [f], [f]) <==> Closed(levels[level], [f]);
  }
}
