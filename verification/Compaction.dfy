/**
 Merging the inputs of a compaction while dropping versions nobody can read
 (db/db_impl.cc: DoCompactionWork; db/version_set.cc: IsBaseLevelForKey,
 MakeInputIterator).
 */
module Compactions {
  import opened Wrappers
  import opened Keys
  import opened Versions

  // ---------- is anything stored deeper? ----------

  predicate Holds(f: File, user: UserKey) { f.Smallest().user <= user <= f.Largest().user }

  /** No file at level `low` or deeper has a user-key range containing the key. */
  ghost predicate BaseLevel(levels: seq<seq<File>>, low: nat, user: UserKey) {
    forall l, f :: low <= l < |levels| && f in levels[l] ==> !Holds(f, user)
  }

  /** Every file before the cursor ends before the last key asked about. */
  ghost predicate CursorValid(files: seq<File>, ptr: nat, lastAsked: Option<UserKey>) {
    && ptr <= |files|
    && forall i :: 0 <= i < ptr ==> lastAsked.Some? && files[i].Largest().user < lastAsked.value
  }

  /** One running compaction: its input version and the cursors of the base-level test. */
  class Compaction {
    const level: nat
    const levels: seq<seq<File>>
    var levelPtrs: seq<nat>
    ghost var lastAsked: Option<UserKey>

    ghost predicate Valid()
      reads this
    {
      && ValidLevels(levels) && |levelPtrs| == NUM_LEVELS && level + 1 < NUM_LEVELS
      && forall l :: level + 2 <= l < NUM_LEVELS ==> CursorValid(levels[l], levelPtrs[l], lastAsked)
    }

    constructor (levels: seq<seq<File>>, level: nat)
      requires ValidLevels(levels) && level + 1 < NUM_LEVELS
      ensures Valid() && this.levels == levels && this.level == level && lastAsked == None
    {
      this.levels, this.level := levels, level;
      levelPtrs := seq(NUM_LEVELS, _ => 0);
      lastAsked := None;
    }

    /**
     The test is amortised: each level's cursor only moves forward, and an early
     `false` leaves the cursors of deeper levels behind. For nondecreasing keys
     it still equals a scan of all deeper files.
     */
    method IsBaseLevelForKey(user: UserKey) returns (r: bool)
      requires Valid() && (lastAsked.Some? ==> lastAsked.value <= user)
      modifies this
      ensures Valid() && lastAsked == Some(user)
      ensures r <==> BaseLevel(levels, level + 2, user)
    {
      assert forall l :: level + 2 <= l < NUM_LEVELS ==> CursorValid(levels[l], levelPtrs[l], Some(user));
      lastAsked := Some(user);
      for lvl := level + 2 to NUM_LEVELS
        invariant Valid() && lastAsked == Some(user)
        invariant forall l, f :: level + 2 <= l < lvl && f in levels[l] ==> !Holds(f, user)
      {
        var ptr, hit := ScanLevel(levels[lvl], levelPtrs[lvl], user);
        levelPtrs := levelPtrs[lvl := ptr];
        if hit {
          return false;
        }
      }
      r := true;
    }
  }

  /** Moves one level's cursor up to the first file that does not end before the key. */
  method ScanLevel(files: seq<File>, start: nat, user: UserKey) returns (ptr: nat, hit: bool)
    requires ValidFiles(files) && Disjoint(files) && CursorValid(files, start, Some(user))
    ensures start <= ptr && CursorValid(files, ptr, Some(user))
    ensures hit <==> exists f :: f in files && Holds(f, user)
  {
    ptr := start;
    while ptr < |files|
      invariant start <= ptr && CursorValid(files, ptr, Some(user))
    {
      var f := files[ptr];
      if user <= f.Largest().user {
        LaterFilesStartLater(files, ptr);
        hit := user >= f.Smallest().user;
        assert files[ptr] in files;
        return;
      }
      ptr := ptr + 1;
    }
    hit := false;
  }

  lemma LaterFilesStartLater(files: seq<File>, i: nat)
    requires ValidFiles(files) && Disjoint(files) && i < |files|
    ensures forall j :: i <= j < |files| ==> files[i].Smallest().user <= files[j].Smallest().user
  {
    forall j | i < j < |files| ensures files[i].Smallest().user <= files[j].Smallest().user {
      FileBounds(files[i], files[i].entries[0]);
      assert Less(files[i].Largest(), files[j].Smallest());
    }
  }

  // ---------- which versions may go ----------

  /** A newer version of the key already serves every snapshot from `oldest` on. */
  ghost predicate Shadowed(input: seq<Entry>, e: Entry, oldest: nat) {
    exists f :: f in input && f.key == e.key && e.seqno < f.seqno <= oldest
  }

  /** A deletion marker no snapshot tells apart from absence, with nothing deeper to hide. */
  ghost predicate Obsolete(e: Entry, oldest: nat, base: bool) {
    e.op.Delete? && e.seqno <= oldest && base
  }

  ghost predicate Dropped(input: seq<Entry>, e: Entry, oldest: nat, levels: seq<seq<File>>, low: nat) {
    Shadowed(input, e, oldest) || Obsolete(e, oldest, BaseLevel(levels, low, e.key))
  }

  ghost function Kept(input: seq<Entry>, n: nat, oldest: nat, levels: seq<seq<File>>, low: nat): seq<Entry>
    requires n <= |input|
  {
    if n == 0 then []
    else
      var rest := Kept(input, n - 1, oldest, levels, low);
      if Dropped(input, input[n - 1], oldest, levels, low) then rest else rest + [input[n - 1]]
  }

  lemma {:induction false} KeptMembers(input: seq<Entry>, n: nat, oldest: nat, levels: seq<seq<File>>, low: nat)
    requires Sorted(input) && n <= |input|
    ensures Sorted(Kept(input, n, oldest, levels, low))
    ensures forall e :: e in Kept(input, n, oldest, levels, low) <==>
                        e in input[..n] && !Dropped(input, e, oldest, levels, low)
  {
    if n > 0 {
      KeptMembers(input, n - 1, oldest, levels, low);
      assert input[..n] == input[..n - 1] + [input[n - 1]];
      var rest := Kept(input, n - 1, oldest, levels, low);
      forall i | 0 <= i < |rest| ensures Less(rest[i].Ikey(), input[n - 1].Ikey()) {
        assert rest[i] in rest;
      }
    }
  }

  /** In a sorted input the newer versions of a key come just before it, smallest number last. */
  lemma ShadowedByPredecessor(input: seq<Entry>, i: nat, oldest: nat)
    requires Sorted(input) && i < |input|
    requires forall j, k :: 0 <= j < k < |input| && input[j].key == input[k].key ==> input[j].seqno > input[k].seqno
    ensures Shadowed(input, input[i], oldest) <==>
            i > 0 && input[i - 1].key == input[i].key && input[i - 1].seqno <= oldest
  {
    if Shadowed(input, input[i], oldest) {
      var f :| f in input && f.key == input[i].key && input[i].seqno < f.seqno <= oldest;
      var j :| 0 <= j < |input| && input[j] == f;
      assert j < i;
      if j < i - 1 {
        assert Less(input[j].Ikey(), input[i - 1].Ikey()) && Less(input[i - 1].Ikey(), input[i].Ikey());
      }
    }
  }

  function Flatten(files: seq<File>): seq<Entry> {
    if files == [] then [] else Flatten(files[..|files| - 1]) + files[|files| - 1].entries
  }

  /** One version per (key, number): what unique sequence numbers give a merged input. */
  ghost predicate StrictInput(input: seq<Entry>) {
    && Sorted(input)
    && forall j, k :: 0 <= j < k < |input| && input[j].key == input[k].key ==> input[j].seqno > input[k].seqno
  }

  /**
   The merge loop. `oldest` is the smallest snapshot anyone may read at;
   `stopBefore` and `bigEnough` stand for the output-size policies, about which
   nothing is assumed.
   */
  method DoCompactionWork(c: Compaction, input: seq<Entry>, oldest: nat, firstNumber: nat,
                          stopBefore: nat -> bool, bigEnough: seq<Entry> -> bool, fileSize: seq<Entry> -> nat)
    returns (outputs: seq<File>)
    requires c.Valid() && c.lastAsked == None && oldest < MAX_SEQUENCE_NUMBER
    requires StrictInput(input)
    modifies c
    ensures Flatten(outputs) == Kept(input, |input|, oldest, c.levels, c.level + 2)
    ensures Numbered(outputs, firstNumber)
  {
    outputs := [];
    var builder: seq<Entry> := [];
    var currentUserKey: Option<UserKey> := None;
    var lastSequenceForKey := MAX_SEQUENCE_NUMBER;
    for i := 0 to |input|
      invariant c.Valid() && (i == 0 ==> c.lastAsked == None)
      invariant i > 0 && c.lastAsked.Some? ==> c.lastAsked.value <= input[i - 1].key
      invariant i == 0 ==> currentUserKey == None
      invariant i > 0 ==> currentUserKey == Some(input[i - 1].key) && lastSequenceForKey == input[i - 1].seqno
      invariant Flatten(outputs) + builder == Kept(input, i, oldest, c.levels, c.level + 2)
      invariant Numbered(outputs, firstNumber)
    {
      var e := input[i];
      ShadowedByPredecessor(input, i, oldest);
      assert i > 0 ==> Less(input[i - 1].Ikey(), e.Ikey());
      KeptStep(input, i, oldest, c.levels, c.level + 2);
      if stopBefore(i) && builder != [] {
        outputs, builder := FinishOutput(outputs, builder, firstNumber, fileSize);
      }
      var drop := false;
      if currentUserKey != Some(e.key) {
        currentUserKey := Some(e.key);
        lastSequenceForKey := MAX_SEQUENCE_NUMBER;
      }
      assert lastSequenceForKey <= oldest <==> Shadowed(input, e, oldest);
      if lastSequenceForKey <= oldest {
        drop := true;
      } else if e.op.Delete? && e.seqno <= oldest {
        drop := c.IsBaseLevelForKey(e.key);
      }
      lastSequenceForKey := e.seqno;
      assert drop <==> Dropped(input, e, oldest, c.levels, c.level + 2);
      if !drop {
        outputs, builder := AddToOutput(outputs, builder, e, firstNumber, bigEnough, fileSize);
      }
    }
    if builder != [] {
      outputs, builder := FinishOutput(outputs, builder, firstNumber, fileSize);
    }
    assert Flatten(outputs) + [] == Flatten(outputs);
  }

  lemma KeptStep(input: seq<Entry>, n: nat, oldest: nat, levels: seq<seq<File>>, low: nat)
    requires n < |input|
    ensures Kept(input, 0, oldest, levels, low) == []
    ensures Kept(input, n + 1, oldest, levels, low) ==
            Kept(input, n, oldest, levels, low) + if Dropped(input, input[n], oldest, levels, low) then []
                                                  else [input[n]]
  {
  }

  /** Non-empty files with consecutive new numbers. */
  predicate Numbered(outputs: seq<File>, firstNumber: nat) {
    forall i :: 0 <= i < |outputs| ==> outputs[i].entries != [] && outputs[i].number == firstNumber + i
  }

  method AddToOutput(outputs: seq<File>, builder: seq<Entry>, e: Entry, firstNumber: nat,
                     bigEnough: seq<Entry> -> bool, fileSize: seq<Entry> -> nat)
    returns (outputs': seq<File>, builder': seq<Entry>)
    requires Numbered(outputs, firstNumber)
    ensures Numbered(outputs', firstNumber)
    ensures Flatten(outputs') + builder' == Flatten(outputs) + builder + [e]
  {
    outputs', builder' := outputs, builder + [e];
    assert Flatten(outputs) + (builder + [e]) == Flatten(outputs) + builder + [e];
    if bigEnough(builder') {
      outputs', builder' := FinishOutput(outputs', builder', firstNumber, fileSize);
    }
  }

  method FinishOutput(outputs: seq<File>, builder: seq<Entry>, firstNumber: nat, fileSize: seq<Entry> -> nat)
    returns (outputs': seq<File>, builder': seq<Entry>)
    requires builder != [] && Numbered(outputs, firstNumber)
    ensures Numbered(outputs', firstNumber)
    ensures outputs' == outputs + [File(firstNumber + |outputs|, fileSize(builder), builder)] && builder' == []
    ensures Flatten(outputs') + builder' == Flatten(outputs) + builder
  {
    outputs' := outputs + [File(firstNumber + |outputs|, fileSize(builder), builder)];
    builder' := [];
    assert outputs'[..|outputs'| - 1] == outputs;
  }

  // ---------- the outputs form a run of disjoint files ----------

  lemma {:induction false} FlattenMembers(outputs: seq<File>)
    ensures forall e :: e in Flatten(outputs) <==> InFiles(outputs, e)
  {
    if outputs != [] {
      var init, last := outputs[..|outputs| - 1], outputs[|outputs| - 1];
      FlattenMembers(init);
      assert outputs == init + [last];
      forall e ensures InFiles(outputs, e) <==> InFiles(init, e) || e in last.entries {
        assert last in outputs;
        assert forall f :: f in outputs <==> f in init || f == last;
      }
    }
  }

  lemma SplitSorted(a: seq<Entry>, b: seq<Entry>)
    requires Sorted(a + b)
    ensures Sorted(a) && Sorted(b)
    ensures forall e, f :: e in a && f in b ==> Less(e.Ikey(), f.Ikey())
  {
    assert forall i :: 0 <= i < |a| ==> (a + b)[i] == a[i];
    assert forall i :: 0 <= i < |b| ==> (a + b)[|a| + i] == b[i];
  }

  lemma {:induction false} OutputsAreDisjoint(outputs: seq<File>)
    requires Sorted(Flatten(outputs))
    requires forall i :: 0 <= i < |outputs| ==> outputs[i].entries != []
    requires forall e :: e in Flatten(outputs) ==> e.seqno <= MAX_SEQUENCE_NUMBER
    ensures ValidFiles(outputs) && Disjoint(outputs)
  {
    if outputs != [] {
      var init, last := outputs[..|outputs| - 1], outputs[|outputs| - 1];
      SplitSorted(Flatten(init), last.entries);
      FlattenMembers(init);
      OutputsAreDisjoint(init);
      forall i | 0 <= i < |init| ensures Less(init[i].Largest(), last.Smallest()) {
        LastEntryIsFlat(init, i);
        assert last.entries[0] in last.entries;
      }
      DisjointAppend(init, last);
      assert outputs == init + [last];
    }
  }

  lemma LastEntryIsFlat(files: seq<File>, i: nat)
    requires i < |files| && files[i].entries != []
    ensures exists e :: e in Flatten(files) && files[i].Largest() == e.Ikey()
  {
    FlattenMembers(files);
    var e := files[i].entries[|files[i].entries| - 1];
    assert files[i] in files && e in files[i].entries;
    assert InFiles(files, e);
  }

  lemma DisjointAppend(files: seq<File>, last: File)
    requires ValidFiles(files) && Disjoint(files) && ValidFile(last)
    requires forall i :: 0 <= i < |files| ==> Less(files[i].Largest(), last.Smallest())
    ensures ValidFiles(files + [last]) && Disjoint(files + [last])
  {
  }
}
