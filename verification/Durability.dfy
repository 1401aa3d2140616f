/**
 What a crash leaves: the table files as the descriptor log lists them, and
 the write-ahead logs cut off at any byte (db/db_impl.cc). The files alone
 serve the history up to the last flush; the logs hold the rest.
 */
module Durability {
  import opened Wrappers
  import opened Keys
  import opened Mvcc
  import opened Versions
  import opened Compactions
  import opened Lsm
  import opened Database
  import opened CompactionLimits

  // ---------- batches and versions ----------

  /** The versions that the writes of `h` after the first `from` store. */
  ghost function Since(h: History, from: nat): iset<Entry> {
    iset e: Entry | from < e.seqno <= |h| && h[e.seqno - 1] == Write(e.key, e.op)
  }

  lemma SinceGrows(h: History, more: History, from: nat)
    requires from <= |h|
    ensures Since(h + more, from) == Since(h, from) + Since(h + more, |h|)
  {
  }

  lemma SinceAppended(h: History, w: Write, from: nat)
    requires from <= |h|
    ensures Since(h + [w], from) == Since(h, from) + iset{Entry(w.key, |h| + 1, w.op)}
  {
  }

  lemma NothingSince(h: History)
    ensures Since(h, |h|) == iset{}
  {
  }

  // ---------- lost writes ----------

  /** A write that no read can notice: a deletion of a key that has no value. */
  ghost predicate IsBlank(h: History, i: nat) {
    i < |h| && h[i].op.Delete? && ValueAfter(h[..i], h[i].key) == None
  }

  lemma BlankChangesNothing(h: History, n: nat, key: UserKey)
    requires IsBlank(h, n)
    ensures ValueAfter(h[..n + 1], key) == ValueAfter(h[..n], key)
  {
    assert h[..n + 1][..n] == h[..n];
  }

  /** A blank number needs no stored version. */
  lemma BlankKeepsReads(s: iset<Entry>, h: History, horizon: nat)
    requires h != [] && Faithful(s, h[..|h| - 1], horizon) && IsBlank(h, |h| - 1) && |h| < MAX_SEQUENCE_NUMBER
    ensures Faithful(s, h, horizon)
  {
    var before, n := h[..|h| - 1], |h| - 1;
    assert FromHistory(s, h);
    forall key: UserKey, snapshot: nat | horizon <= snapshot <= |h| ensures ReadsRight(s, h, key, snapshot) {
      assert h[..|h|] == h && before[..n] == before;
      if snapshot <= n {
        assert ReadsRight(s, before, key, snapshot) && before[..snapshot] == h[..snapshot];
      } else {
        BlankChangesNothing(h, n, key);
        assert ReadsRight(s, before, key, n);
        assert forall r :: Answers(s, key, snapshot, r) ==> Answers(s, key, n, r);
      }
    }
  }

  lemma WriteKeepsFaithful(s: iset<Entry>, h: History, horizon: nat)
    requires h != [] && Faithful(s, h[..|h| - 1], horizon) && |h| < MAX_SEQUENCE_NUMBER
    ensures Faithful(s + iset{Entry(h[|h| - 1].key, |h|, h[|h| - 1].op)}, h, horizon)
  {
    WriteKeepsReads(s, h[..|h| - 1], horizon, h[|h| - 1]);
    assert h == h[..|h| - 1] + [h[|h| - 1]];
  }

  ghost function VersionAt(h: History, i: nat): Entry
    requires i < |h|
  {
    Entry(h[i].key, i + 1, h[i].op)
  }

  /** All versions of `more` but that of the last write. */
  lemma LastVersion(h: History, before: History, n: nat, more: iset<Entry>) returns (older: iset<Entry>)
    requires n < |h| && before == h[..|h| - 1] && more <= Since(h, n)
    requires forall i :: n <= i < |h| ==> VersionAt(h, i) in more || IsBlank(h, i)
    ensures older <= Since(before, n)
    ensures forall i :: n <= i < |before| ==> VersionAt(before, i) in older || IsBlank(before, i)
    ensures more == if VersionAt(h, |h| - 1) in more then older + iset{VersionAt(h, |h| - 1)} else older
  {
    hide IsBlank;
    older := iset x | x in more && x.seqno < |h|;
    forall i | n <= i < |before| ensures VersionAt(before, i) in older || IsBlank(before, i) {
      assert VersionAt(h, i) in more || IsBlank(h, i);
      BlankInPrefix(before, h, i);
    }
  }

  /** A store that serves a prefix of the history serves more of it once the versions written since are added. */
  lemma {:induction false} FaithfulGrows(s: iset<Entry>, h: History, horizon: nat, n: nat, more: iset<Entry>)
    requires n <= |h| < MAX_SEQUENCE_NUMBER && Faithful(s, h[..n], horizon) && more <= Since(h, n)
    requires forall i :: n <= i < |h| ==> VersionAt(h, i) in more || IsBlank(h, i)
    ensures Faithful(s + more, h, horizon)
    decreases |h|
  {
    hide Faithful, IsBlank;
    if n == |h| {
      assert h[..n] == h && s + more == s;
    } else {
      var before, e := h[..|h| - 1], VersionAt(h, |h| - 1);
      var older := LastVersion(h, before, n, more);
      assert before[..n] == h[..n];
      FaithfulGrows(s, before, horizon, n, older);
      if e in more {
        WriteKeepsFaithful(s + older, h, horizon);
        assert s + more == (s + older) + iset{e};
      } else {
        assert VersionAt(h, |h| - 1) in more || IsBlank(h, |h| - 1);
        BlankKeepsReads(s + older, h, horizon);
      }
    }
  }

  lemma BlankInPrefix(before: History, h: History, i: nat)
    requires before <= h && i < |before|
    ensures IsBlank(before, i) <==> IsBlank(h, i)
  {
    assert h[..i] == before[..i];
  }

  // ---------- what is safe ----------

  function Min(a: nat, b: nat): nat { if a < b then a else b }

  /** The logs of the two memtables hold, batch by batch, all writes after the first `flushed`. */
  ghost predicate LogsHold(h: History, flushed: nat, immLog: seq<History>, log: seq<History>, mem: seq<Entry>,
                           imm: Option<seq<Entry>>)
  {
    && flushed <= |h| && h[flushed..] == Concat(immLog) + Concat(log) && (imm.None? ==> immLog == [])
    && Elems(mem) == Since(h, flushed + |Concat(immLog)|)
    && Elems(EntriesOf(imm)) == Since(h[..flushed + |Concat(immLog)|], flushed)
  }

  /** The files by themselves serve the first `flushed` writes. */
  ghost predicate FilesServe(levels: seq<seq<File>>, h: History, horizon: nat, flushed: nat) {
    flushed <= |h| && Faithful(StoredFrom(levels, 0), h[..flushed], Min(horizon, flushed))
  }

  lemma CommitIsLogged(h: History, flushed: nat, immLog: seq<History>, log: seq<History>, mem: seq<Entry>,
                       imm: Option<seq<Entry>>, batch: History, mem': seq<Entry>)
    requires LogsHold(h, flushed, immLog, log, mem, imm) && Elems(mem') == Elems(mem) + Since(h + batch, |h|)
    ensures LogsHold(h + batch, flushed, immLog, log + [batch], mem', imm)
  {
    hide Since;
    var before, written := Concat(immLog), Concat(log);
    SinceGrows(h, batch, flushed + |before|);
    assert (log + [batch])[..|log|] == log;
    assert (h + batch)[..flushed + |before|] == h[..flushed + |before|];
    assert (h + batch)[flushed..] == h[flushed..] + batch == before + (written + batch);
  }

  lemma CommitKeepsFiles(levels: seq<seq<File>>, h: History, horizon: nat, flushed: nat, batch: History)
    requires FilesServe(levels, h, horizon, flushed)
    ensures FilesServe(levels, h + batch, horizon, flushed)
  {
    assert (h + batch)[..flushed] == h[..flushed];
  }

  lemma SwitchMovesLog(h: History, flushed: nat, immLog: seq<History>, log: seq<History>, mem: seq<Entry>)
    requires LogsHold(h, flushed, immLog, log, mem, None)
    ensures LogsHold(h, flushed, log, [], [], Some(mem))
  {
    assert h[..|h|] == h;
    assert Elems([]) == Since(h, |h|);
  }

  /** With empty memtables the files serve everything. */
  lemma AllOnFile(levels: seq<seq<File>>, h: History, horizon: nat)
    requires Faithful(Contents([], None, levels), h, horizon)
    ensures FilesServe(levels, h, horizon, |h|) && LogsHold(h, |h|, [], [], [], None)
  {
    hide ReadsRightFrom, FromHistory, StoredFrom;
    assert h[..|h|] == h && Contents([], None, levels) == StoredFrom(levels, 0);
    NothingSince(h);
    assert Elems([]) == iset{} && Concat<Write>([]) == [];
  }

  /** A flush hands the older log's writes to the files. */
  lemma FlushServesMore(levels: seq<seq<File>>, h: History, horizon: nat, flushed: nat, immLog: seq<History>,
                        log: seq<History>, mem: seq<Entry>, imm: Option<seq<Entry>>, levels': seq<seq<File>>)
    requires LogsHold(h, flushed, immLog, log, mem, imm) && FilesServe(levels, h, horizon, flushed)
    requires StoredFrom(levels', 0) == StoredFrom(levels, 0) + Elems(EntriesOf(imm)) && |h| < MAX_SEQUENCE_NUMBER
    ensures flushed + |Concat(immLog)| <= |h| && LogsHold(h, flushed + |Concat(immLog)|, [], log, mem, None)
    ensures FilesServe(levels', h, horizon, flushed + |Concat(immLog)|)
  {
    hide Faithful, StoredFrom, Since;
    var switched := flushed + |Concat(immLog)|;
    var upto := h[..switched];
    LogAfterFlush(h, flushed, immLog, log);
    NothingSince(upto);
    assert upto[..flushed] == h[..flushed];
    AllSince(upto, flushed);
    FlushedBound(StoredFrom(levels, 0), h[..flushed], Min(horizon, flushed));
    FaithfulGrows(StoredFrom(levels, 0), upto, Min(horizon, flushed), flushed, Since(upto, flushed));
    LaterHorizon(StoredFrom(levels', 0), upto, Min(horizon, flushed), Min(horizon, switched));
  }

  lemma LogAfterFlush(h: History, flushed: nat, immLog: seq<History>, log: seq<History>)
    requires flushed <= |h| && h[flushed..] == Concat(immLog) + Concat(log)
    ensures flushed + |Concat(immLog)| <= |h| && h[flushed + |Concat(immLog)|..] == Concat([]) + Concat(log)
  {
    assert h[flushed + |Concat(immLog)|..] == h[flushed..][|Concat(immLog)|..];
    assert Concat<Write>([]) == [];
  }

  lemma AllSince(h: History, n: nat)
    ensures forall i :: n <= i < |h| ==> VersionAt(h, i) in Since(h, n)
  {
  }

  lemma FlushedBound(s: iset<Entry>, h: History, horizon: nat)
    requires Faithful(s, h, horizon)
    ensures horizon <= |h|
  {
  }

  lemma SameFilesServe(levels: seq<seq<File>>, levels': seq<seq<File>>, h: History, horizon: nat, flushed: nat)
    requires StoredFrom(levels', 0) == StoredFrom(levels, 0)
    ensures FilesServe(levels', h, horizon, flushed) <==> FilesServe(levels, h, horizon, flushed)
  {
  }

  lemma FlushedBefore(h: History, flushed: nat, immLog: seq<History>, log: seq<History>, mem: seq<Entry>,
                      imm: Option<seq<Entry>>)
    requires LogsHold(h, flushed, immLog, log, mem, imm)
    ensures flushed <= |h|
  {
  }

  lemma LaterHorizon(s: iset<Entry>, h: History, horizon: nat, later: nat)
    requires Faithful(s, h, horizon) && horizon <= later <= |h|
    ensures Faithful(s, h, later)
  {
  }

  /** Nothing stored is newer than the last flush, so reads beyond it are reads at it. */
  lemma SameReadsFrom(s: iset<Entry>, s': iset<Entry>, h: History, oldest: nat)
    requires FromHistory(s, h) && FromHistory(s', h)
    ensures SameReads(s, s', Min(oldest, |h|)) <==> SameReads(s, s', oldest)
  {
    if SameReads(s, s', oldest) && |h| < oldest {
      forall key: UserKey, snapshot: nat | |h| <= snapshot ensures SameRead(s, s', key, snapshot) {
        assert SameRead(s, s', key, oldest);
        NothingAfterHistory(s, h, key, snapshot, |h|);
        NothingAfterHistory(s', h, key, snapshot, |h|);
        assert forall r :: Answers(s, key, |h|, r) ==> Answers(s, key, oldest, r);
        assert forall r :: Answers(s', key, |h|, r) ==> Answers(s', key, oldest, r);
      }
    }
  }

  /**
   A merge leaves the files serving the flushed writes exactly if no marker it
   drops hides, among the files alone, a value the two levels keep.
   */
  lemma FilesServeExact(levels: seq<seq<File>>, now: seq<seq<File>>, p: Pick, input: seq<Entry>, oldest: nat,
                        outputs: seq<File>, now': seq<seq<File>>, h: History, horizon: nat, flushed: nat)
    requires Picked(levels, p) && Grown(levels, now) && FilesServe(now, h, horizon, flushed) && horizon <= oldest
    requires Rewritten(levels, p, input, oldest, outputs) && Replaced(now, p, outputs, now')
    ensures p.level + 1 < |levels|
    ensures FilesServe(now', h, oldest, flushed) <==> NoneRevived(StoredFrom(now, 0), levels, p, oldest)
  {
    hide Picked, Rewritten, Replaced, Grown, NoneRevived, ReadsRightFrom, FromHistory, SameReads, UniqueVersions;
    var s, s', low := StoredFrom(now, 0), StoredFrom(now', 0), Min(oldest, flushed);
    FromHistoryUnique(s, h[..flushed]);
    assert iset{} + s == s && iset{} + s' == s';
    ReadsExact(iset{}, levels, now, 0, p, input, oldest, outputs, now');
    FewerFiles(levels, now, p, input, oldest, outputs, now');
    SmallerFromHistory(s, s', h[..flushed]);
    FaithfulExact(s, s', h[..flushed], Min(horizon, flushed), low);
    SameReadsFrom(s, s', h[..flushed], oldest);
  }

  /** Files flushed in the meantime can only hide more. */
  lemma GrownRevivesNoMore(levels: seq<seq<File>>, now: seq<seq<File>>, p: Pick, oldest: nat)
    requires Picked(levels, p) && Grown(levels, now)
    ensures p.level + 1 < |levels|
    ensures NoneRevived(StoredFrom(levels, 0), levels, p, oldest) ==> NoneRevived(StoredFrom(now, 0), levels, p, oldest)
  {
    hide Picked, Grown, BaseLevel, LeftIn, InInputs, InLevels;
    PickedFacts(levels, p);
    StoredBefore(levels, 0, p);
    GrownStore(levels, now, 0);
    forall t, x | InInputs(p, t) && RevivesIn(StoredFrom(now, 0), levels, p, oldest, t, x)
      ensures RevivesIn(StoredFrom(levels, 0), levels, p, oldest, t, x)
    {
      assert t in StoredFrom(levels, 0);
    }
  }
}
