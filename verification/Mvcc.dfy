/**
 What the database means: the list of all writes in commit order, and what a
 read at a snapshot returns. A set of stored versions is judged against it.
 */
module Mvcc {
  import opened Wrappers
  import opened Keys

  /** One Put or Delete of a committed batch; its sequence number is its position plus one. */
  datatype Write = Write(key: UserKey, op: Op)

  type History = seq<Write>

  /** The value of a key after the writes of `h`: the last write to it decides. */
  function ValueAfter(h: History, key: UserKey): Option<Bytes> {
    if h == [] then None
    else
      var w := h[|h| - 1];
      if w.key == key then Outcome(Some(w.op)) else ValueAfter(h[..|h| - 1], key)
  }

  function Outcome(op: Option<Op>): Option<Bytes> {
    if op.Some? && op.value.Put? then Some(op.value.value) else None
  }

  /** `e` is the newest version of `key` in `s` that `snapshot` may see. */
  ghost predicate IsNewest(s: iset<Entry>, key: UserKey, snapshot: nat, e: Entry) {
    && e in s && e.key == key && e.seqno <= snapshot
    && forall f :: f in s && f.key == key && f.seqno <= snapshot ==> f.seqno <= e.seqno
  }

  ghost predicate NoneVisible(s: iset<Entry>, key: UserKey, snapshot: nat) {
    forall f :: f in s && f.key == key ==> f.seqno > snapshot
  }

  /** `r` is the right version to return for a lookup in `s`. */
  ghost predicate Answers(s: iset<Entry>, key: UserKey, snapshot: nat, r: Option<Entry>) {
    match r
    case Some(e) => IsNewest(s, key, snapshot, e)
    case None => NoneVisible(s, key, snapshot)
  }

  function OpOf(r: Option<Entry>): Option<Op> {
    if r.Some? then Some(r.value.op) else None
  }

  /** Sequence numbers are assigned once: two versions with the same number are the same. */
  ghost predicate UniqueVersions(s: iset<Entry>) {
    forall e, f :: e in s && f in s && e.seqno == f.seqno ==> e == f
  }

  /** Every stored version is a committed write. */
  ghost predicate FromHistory(s: iset<Entry>, h: History) {
    forall e :: e in s ==> 1 <= e.seqno <= |h| && h[e.seqno - 1] == Write(e.key, e.op)
  }

  /** Any right answer for `s` at `snapshot` is the value after the first `snapshot` writes. */
  ghost predicate ReadsRight(s: iset<Entry>, h: History, key: UserKey, snapshot: nat)
    requires snapshot <= |h|
  {
    forall r :: Answers(s, key, snapshot, r) ==> Outcome(OpOf(r)) == ValueAfter(h[..snapshot], key)
  }

  /** Reads are right at every snapshot from `low` on. */
  ghost predicate ReadsRightFrom(s: iset<Entry>, h: History, low: nat) {
    forall key: UserKey, snapshot: nat | low <= snapshot <= |h| ::
      ReadsRight(s, h, key, snapshot)
  }

  /** Versions of `a` are newer than versions of the same user key in `b`. */
  ghost predicate NewerThan(a: iset<Entry>, b: iset<Entry>) {
    forall e, f :: e in a && f in b && e.key == f.key ==> e.seqno > f.seqno
  }

  lemma FromHistoryUnique(s: iset<Entry>, h: History)
    requires FromHistory(s, h)
    ensures UniqueVersions(s)
  {
    forall e, f | e in s && f in s && e.seqno == f.seqno ensures e == f {
      assert Write(e.key, e.op) == Write(f.key, f.op);
    }
  }

  /** Why a search may stop at the first place that answers. */
  lemma FirstAnswerWins(a: iset<Entry>, b: iset<Entry>, key: UserKey, snapshot: nat, e: Entry)
    requires NewerThan(a, b) && IsNewest(a, key, snapshot, e)
    ensures IsNewest(a + b, key, snapshot, e)
  {
  }

  lemma NextPlaceAnswers(a: iset<Entry>, b: iset<Entry>, key: UserKey, snapshot: nat, r: Option<Entry>)
    requires NoneVisible(a, key, snapshot) && Answers(b, key, snapshot, r)
    ensures Answers(a + b, key, snapshot, r)
  {
  }

  /** Storing a committed write keeps every read right. */
  lemma WriteKeepsReads(s: iset<Entry>, h: History, low: nat, w: Write)
    requires FromHistory(s, h) && ReadsRightFrom(s, h, low) && low <= |h|
    ensures FromHistory(s + iset{Entry(w.key, |h| + 1, w.op)}, h + [w])
    ensures ReadsRightFrom(s + iset{Entry(w.key, |h| + 1, w.op)}, h + [w], low)
  {
    var e := Entry(w.key, |h| + 1, w.op);
    var s', h' := s + iset{e}, h + [w];
    forall key: UserKey, snapshot: nat | low <= snapshot <= |h'|
      ensures ReadsRight(s', h', key, snapshot)
    {
      forall r | Answers(s', key, snapshot, r)
        ensures Outcome(OpOf(r)) == ValueAfter(h'[..snapshot], key)
      {
        if snapshot <= |h| {
          assert h'[..snapshot] == h[..snapshot];
          assert Answers(s, key, snapshot, r);
          assert ReadsRight(s, h, key, snapshot);
        } else {
          assert h'[..snapshot] == h' && h'[..|h|] == h && h[..|h|] == h;
          if key == w.key {
            assert e in s';
            assert r == Some(e);
          } else {
            assert Answers(s, key, |h|, r) by {
              if r.Some? { assert r.value in s; }
            }
            assert ReadsRight(s, h, key, |h|);
          }
        }
      }
    }
  }
}
