/** Batches of writes as bytes (db/write_batch.cc). */
module WriteBatches {
  import opened Wrappers
  import opened Keys
  import opened Coding

  datatype BatchOp = PutOp(key: Bytes, value: Bytes) | DeleteOp(key: Bytes)

  const HEADER: nat := 12

  predicate OpFits(op: BatchOp) {
    |op.key| < TWO_32 && (op.PutOp? ==> |op.value| < TWO_32)
  }

  function EncodeOp(op: BatchOp): (r: Bytes)
    ensures |r| > 0
  {
    if op.PutOp? then [1] + Prefixed(op.key) + Prefixed(op.value) else [0] + Prefixed(op.key)
  }

  function EncodeOps(ops: seq<BatchOp>): Bytes {
    if ops == [] then [] else EncodeOps(ops[..|ops| - 1]) + EncodeOp(ops[|ops| - 1])
  }

  function Rep(seqno: nat, ops: seq<BatchOp>): Bytes { Fixed64(seqno) + Fixed32(|ops|) + EncodeOps(ops) }

  /** One record off the front of the input, if it is well formed. */
  function ReadOp(input: Bytes): Option<(BatchOp, Bytes)>
    requires input != []
  {
    if input[0] == 1 then
      match ReadPrefixed(input[1..])
      case None => None
      case Some((key, rest)) => (
        match ReadPrefixed(rest)
        case None => None
        case Some((value, rest')) => Some((PutOp(key, value), rest')))
    else if input[0] == 0 then
      match ReadPrefixed(input[1..])
      case None => None
      case Some((key, rest)) => Some((DeleteOp(key), rest))
    else None
  }

  lemma ReadPrefixedShortens(input: Bytes)
    ensures ReadPrefixed(input).Some? ==> |ReadPrefixed(input).value.1| < |input|
  {
    hide ReadVarint;
    ReadVarintShortens(input, 1, 5, 0, TWO_32);
  }

  lemma ReadOpShortens(input: Bytes)
    requires input != []
    ensures ReadOp(input).Some? ==> |ReadOp(input).value.1| < |input|
  {
    hide ReadPrefixed;
    ReadPrefixedShortens(input[1..]);
    if ReadPrefixed(input[1..]).Some? { ReadPrefixedShortens(ReadPrefixed(input[1..]).value.1); }
  }

  /** The records handed to the handler, and whether the input was well formed throughout. */
  function ReadOps(input: Bytes): (seq<BatchOp>, bool)
    decreases |input|
  {
    if input == [] then ([], true)
    else
      match ReadOp(input)
      case None => ([], false)
      case Some((op, rest)) =>
        ReadOpShortens(input);
        var (ops, ok) := ReadOps(rest);
        ([op] + ops, ok)
  }

  lemma ReadOpBack(op: BatchOp, rest: Bytes)
    requires OpFits(op)
    ensures ReadOp(EncodeOp(op) + rest) == Some((op, rest))
  {
    hide ReadPrefixed, Prefixed;
    var input := EncodeOp(op) + rest;
    if op.PutOp? {
      assert input[1..] == Prefixed(op.key) + (Prefixed(op.value) + rest);
      PrefixedRoundTrip(op.key, Prefixed(op.value) + rest);
      PrefixedRoundTrip(op.value, rest);
    } else {
      assert input[1..] == Prefixed(op.key) + rest;
      PrefixedRoundTrip(op.key, rest);
    }
  }

  lemma {:induction false} EncodeFirst(ops: seq<BatchOp>)
    requires ops != []
    ensures EncodeOps(ops) == EncodeOp(ops[0]) + EncodeOps(ops[1..])
  {
    hide EncodeOp;
    if |ops| == 1 {
      assert ops[..0] == [] && ops[1..] == [];
      assert EncodeOps(ops[..0]) == [] && EncodeOps(ops[1..]) == [];
    } else {
      var init := ops[..|ops| - 1];
      EncodeFirst(init);
      assert init[1..] == ops[1..][..|ops[1..]| - 1] && ops[|ops| - 1] == ops[1..][|ops[1..]| - 1];
      RepJoin([], EncodeOp(ops[0]), EncodeOps(init[1..]), EncodeOp(ops[|ops| - 1]));
    }
  }

  /** Iterating over what was put into a batch gives it back. */
  lemma {:induction false} ReadOpsBack(ops: seq<BatchOp>)
    requires forall i :: 0 <= i < |ops| ==> OpFits(ops[i])
    ensures ReadOps(EncodeOps(ops)) == (ops, true)
    decreases |ops|
  {
    hide ReadOp, ReadOps, EncodeOp, EncodeOps;
    if ops == [] {
      ReadOpsEnd();
      assert EncodeOps([]) == [] by { NothingEncoded(); }
    } else {
      EncodeFirst(ops);
      ReadOpBack(ops[0], EncodeOps(ops[1..]));
      ReadOpsStep(EncodeOps(ops));
      ReadOpsBack(ops[1..]);
      assert ops == [ops[0]] + ops[1..];
    }
  }

  function Count(rep: Bytes): nat
    requires |rep| >= HEADER
  {
    DecodeFixed(rep[8..12])
  }

  function Sequence(rep: Bytes): nat
    requires |rep| >= HEADER
  {
    DecodeFixed(rep[..8])
  }

  lemma RepParts(seqno: nat, ops: seq<BatchOp>)
    requires seqno < TWO_64 && |ops| < TWO_32
    ensures |Rep(seqno, ops)| >= HEADER && Sequence(Rep(seqno, ops)) == seqno && Count(Rep(seqno, ops)) == |ops|
    ensures Rep(seqno, ops)[HEADER..] == EncodeOps(ops)
  {
    hide Fixed;
    Fixed64RoundTrip(seqno);
    Fixed32RoundTrip(|ops|);
    assert Rep(seqno, ops)[..8] == Fixed64(seqno) && Rep(seqno, ops)[8..12] == Fixed32(|ops|);
  }

  /** A version to be stored: the memtable's view of one write. */
  function EntryOf(op: BatchOp, seqno: nat): Entry {
    Entry(Rank(op.key), seqno, if op.PutOp? then Put(op.value) else Delete)
  }

  function EntriesFrom(ops: seq<BatchOp>, seqno: nat): (r: seq<Entry>)
    ensures |r| == |ops|
  {
    seq(|ops|, i requires 0 <= i < |ops| => EntryOf(ops[i], seqno + i))
  }

  /** The representation after one more write is appended. */
  lemma RepAppended(seqno: nat, ops: seq<BatchOp>, op: BatchOp)
    ensures Rep(seqno, ops + [op]) == Fixed64(seqno) + Fixed32(|ops| + 1) + EncodeOps(ops) + EncodeOp(op)
  {
    hide Fixed, EncodeOp;
    var more := ops + [op];
    assert more[..|more| - 1] == ops && more[|more| - 1] == op;
    assert EncodeOps(more) == EncodeOps(ops) + EncodeOp(op);
    JoinLast(Fixed64(seqno) + Fixed32(|ops| + 1), EncodeOps(ops), EncodeOp(op));
  }

  lemma JoinLast(head: Bytes, middle: Bytes, last: Bytes)
    ensures head + (middle + last) == head + middle + last
  {
  }

  /** The representation around the count. */
  lemma RepSlices(seqno: nat, ops: seq<BatchOp>)
    ensures var rep := Rep(seqno, ops);
            |rep| >= HEADER && rep[..8] == Fixed64(seqno) && rep[8..] == Fixed32(|ops|) + EncodeOps(ops)
            && rep[12..] == EncodeOps(ops)
  {
    hide Fixed, EncodeOps;
  }

  class WriteBatch {
    var rep: Bytes
    ghost var seqno: nat
    ghost var ops: seq<BatchOp>

    ghost predicate Valid()
      reads this
    {
      rep == Rep(seqno, ops) && seqno < TWO_64 && |ops| < TWO_32
    }

    constructor ()
      ensures Valid() && seqno == 0 && ops == []
    {
      rep := seq(HEADER, _ => 0);
      seqno, ops := 0, [];
      new;
      assert Fixed64(0) == [0, 0, 0, 0, 0, 0, 0, 0] && Fixed32(0) == [0, 0, 0, 0];
    }

    method SetCount(n: nat)
      requires Valid()
      modifies this`rep
      ensures rep == Fixed64(seqno) + Fixed32(n) + EncodeOps(ops)
    {
      hide Fixed, EncodeOps, Rep;
      RepSlices(seqno, ops);
      rep := rep[..8] + Fixed32(n) + rep[12..];
    }

    method Put(key: Bytes, value: Bytes)
      requires Valid() && |ops| + 1 < TWO_32
      modifies this
      ensures Valid() && seqno == old(seqno) && ops == old(ops) + [PutOp(key, value)]
    {
      hide Fixed, EncodeOps, Rep, Prefixed;
      RepParts(seqno, ops);
      RepAppended(seqno, ops, PutOp(key, value));
      SetCount(Count(rep) + 1);
      rep := rep + ([1] + Prefixed(key) + Prefixed(value));
      ops := ops + [PutOp(key, value)];
    }

    method Delete(key: Bytes)
      requires Valid() && |ops| + 1 < TWO_32
      modifies this
      ensures Valid() && seqno == old(seqno) && ops == old(ops) + [DeleteOp(key)]
    {
      hide Fixed, EncodeOps, Rep, Prefixed;
      RepParts(seqno, ops);
      RepAppended(seqno, ops, DeleteOp(key));
      SetCount(Count(rep) + 1);
      rep := rep + ([0] + Prefixed(key));
      ops := ops + [DeleteOp(key)];
    }

    /** Appends the other batch's writes behind this one's. */
    method Append(src: WriteBatch)
      requires src != this && Valid() && src.Valid() && |ops| + |src.ops| < TWO_32
      modifies this
      ensures Valid() && seqno == old(seqno) && ops == old(ops) + src.ops
    {
      hide Fixed, EncodeOps;
      RepParts(seqno, ops);
      RepParts(src.seqno, src.ops);
      EncodeConcat(ops, src.ops);
      RepJoin(Fixed64(seqno), Fixed32(|ops| + |src.ops|), EncodeOps(ops), EncodeOps(src.ops));
      SetCount(Count(rep) + Count(src.rep));
      rep := rep + src.rep[HEADER..];
      ops := ops + src.ops;
    }

    method SetSequence(n: nat)
      requires Valid() && n < TWO_64
      modifies this
      ensures Valid() && seqno == n && ops == old(ops)
    {
      hide Fixed, EncodeOps;
      RepSlices(seqno, ops);
      RepJoin([], Fixed64(n), Fixed32(|ops|), EncodeOps(ops));
      rep := Fixed64(n) + rep[8..];
      seqno := n;
    }
  }

  lemma RepJoin(a: Bytes, b: Bytes, c: Bytes, d: Bytes)
    ensures a + b + c + d == a + b + (c + d) && [] + b == b
  {
  }

  lemma {:induction false} EncodeConcat(a: seq<BatchOp>, b: seq<BatchOp>)
    ensures EncodeOps(a + b) == EncodeOps(a) + EncodeOps(b)
    decreases |b|
  {
    hide EncodeOp;
    if b == [] {
      assert a + b == a;
    } else {
      EncodeConcat(a, b[..|b| - 1]);
      assert (a + b)[..|a + b| - 1] == a + b[..|b| - 1];
      RepJoin([], EncodeOps(a), EncodeOps(b[..|b| - 1]), EncodeOp(b[|b| - 1]));
    }
  }

  /** Replays a batch into a memtable: sequence numbers count up from the header's. */
  method InsertInto(rep: Bytes, mem: seq<Entry>) returns (ok: bool, mem': seq<Entry>)
    ensures |rep| < HEADER ==> !ok && mem' == mem
    ensures |rep| >= HEADER ==>
              var (ops, wellFormed) := ReadOps(rep[HEADER..]);
              mem' == mem + EntriesFrom(ops, Sequence(rep)) && (ok <==> wellFormed && |ops| == Count(rep))
  {
    hide ReadOps, ReadOp, Sequence, Count, EntryOf;
    mem' := mem;
    if |rep| < HEADER {
      return false, mem;
    }
    var input := rep[HEADER..];
    var sequence := Sequence(rep);
    var found := 0;
    ghost var seen: seq<BatchOp> := [];
    while input != []
      invariant found == |seen| && sequence == Sequence(rep) + found
      invariant mem' == mem + EntriesFrom(seen, Sequence(rep))
      invariant ReadOps(rep[HEADER..]).0 == seen + ReadOps(input).0 && ReadOps(rep[HEADER..]).1 == ReadOps(input).1
      decreases |input|
    {
      found := found + 1;
      var op := ReadOp(input);
      ReadOpsStep(input);
      if op.None? {
        return false, mem';
      }
      ReadOpShortens(input);
      mem' := mem' + [EntryOf(op.value.0, sequence)];
      EntriesGrow(seen, op.value.0, Sequence(rep));
      seen := seen + [op.value.0];
      sequence := sequence + 1;
      input := op.value.1;
    }
    ReadOpsEnd();
    ok := found == Count(rep);
  }

  lemma EntriesGrow(ops: seq<BatchOp>, op: BatchOp, seqno: nat)
    ensures EntriesFrom(ops + [op], seqno) == EntriesFrom(ops, seqno) + [EntryOf(op, seqno + |ops|)]
  {
  }

  lemma NothingEncoded()
    ensures EncodeOps([]) == []
  {
  }

  lemma ReadOpsEnd()
    ensures ReadOps([]) == ([], true)
  {
  }

  lemma ReadOpsStep(input: Bytes)
    requires input != []
    ensures match ReadOp(input)
            case None => ReadOps(input) == ([], false)
            case Some((op, rest)) => ReadOps(input) == ([op] + ReadOps(rest).0, ReadOps(rest).1)
  {
    if ReadOp(input).Some? { ReadOpShortens(input); }
  }

  /** Replaying an encoded batch stores exactly its writes, numbered from its sequence number. */
  lemma ReplayIsExact(seqno: nat, ops: seq<BatchOp>)
    requires seqno < TWO_64 && |ops| < TWO_32 && forall i :: 0 <= i < |ops| ==> OpFits(ops[i])
    ensures |Rep(seqno, ops)| >= HEADER && ReadOps(Rep(seqno, ops)[HEADER..]) == (ops, true)
    ensures Sequence(Rep(seqno, ops)) == seqno && Count(Rep(seqno, ops)) == |ops|
  {
    RepParts(seqno, ops);
    ReadOpsBack(ops);
  }
}
