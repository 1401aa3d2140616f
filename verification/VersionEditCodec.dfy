/** How a version edit is written to the MANIFEST and read back (db/version_edit.cc). */
module VersionEditCodec {
  import opened Wrappers
  import opened Keys
  import opened Coding
  import Versions

  // ---------- values ----------

  datatype NewFile = NewFile(level: nat, number: nat, size: nat, smallest: Bytes, largest: Bytes)

  /** `deleted` lists a std::set in its iteration order: by level, then by number. */
  datatype Edit = Edit(
    comparator: Option<Bytes>,
    logNumber: Option<nat>,
    prevLogNumber: Option<nat>,
    nextFile: Option<nat>,
    lastSequence: Option<nat>,
    compactPointers: seq<(nat, Bytes)>,
    deleted: seq<(nat, nat)>,
    added: seq<NewFile>)

  const NO_EDIT: Edit := Edit(None, None, None, None, None, [], [], [])

  predicate Before(a: (nat, nat), b: (nat, nat)) { a.0 < b.0 || (a.0 == b.0 && a.1 < b.1) }

  predicate Increasing(ds: seq<(nat, nat)>) { forall i, j :: 0 <= i < j < |ds| ==> Before(ds[i], ds[j]) }

  /** Inserting into the ordered set. */
  function Inserted(ds: seq<(nat, nat)>, d: (nat, nat)): seq<(nat, nat)> {
    if ds == [] then [d]
    else if Before(d, ds[0]) then [d] + ds
    else if d == ds[0] then ds
    else [ds[0]] + Inserted(ds[1..], d)
  }

  lemma {:induction false} InsertedIsASet(ds: seq<(nat, nat)>, d: (nat, nat))
    requires Increasing(ds)
    ensures Increasing(Inserted(ds, d))
    ensures forall x :: x in Inserted(ds, d) <==> x in ds || x == d
  {
    if ds == [] || Before(d, ds[0]) || d == ds[0] {
    } else {
      InsertedIsASet(ds[1..], d);
      assert ds == [ds[0]] + ds[1..];
      var tail := Inserted(ds[1..], d);
      assert forall x :: x in tail ==> Before(ds[0], x);
      assert Inserted(ds, d) == [ds[0]] + tail;
    }
  }

  lemma {:induction false} InsertedLast(ds: seq<(nat, nat)>, d: (nat, nat))
    requires Increasing(ds + [d])
    ensures Inserted(ds, d) == ds + [d]
  {
    if ds != [] {
      var all := ds + [d];
      assert Before(all[0], all[|ds|]);
      assert all[1..] == ds[1..] + [d];
      InsertedLast(ds[1..], d);
    }
  }

  // ---------- records ----------

  datatype Field = LogNumber | PrevLogNumber | NextFileNumber | LastSequence

  datatype Record =
    | Comparator(name: Bytes)
    | Number(field: Field, value: nat)
    | CompactPointer(level: nat, key: Bytes)
    | DeletedFile(level: nat, number: nat)
    | AddedFile(file: NewFile)

  function Tag(r: Record): nat {
    match r
    case Comparator(_) => 1
    case Number(field, _) => FieldTag(field)
    case CompactPointer(_, _) => 5
    case DeletedFile(_, _) => 6
    case AddedFile(_) => 7
  }

  function FieldTag(f: Field): nat {
    match f
    case LogNumber => 2
    case NextFileNumber => 3
    case LastSequence => 4
    case PrevLogNumber => 9
  }

  function Body(r: Record): Bytes {
    match r
    case Comparator(name) => Prefixed(name)
    case Number(_, n) => Varint(n)
    case CompactPointer(level, key) => Varint(level) + Prefixed(key)
    case DeletedFile(level, n) => Varint(level) + Varint(n)
    case AddedFile(f) => Varint(f.level) + Varint(f.number) + Varint(f.size) + Prefixed(f.smallest)
                         + Prefixed(f.largest)
  }

  function RecordBytes(r: Record): Bytes { Varint(Tag(r)) + Body(r) }

  function AllBytes(rs: seq<Record>): Bytes {
    if rs == [] then [] else AllBytes(rs[..|rs| - 1]) + RecordBytes(rs[|rs| - 1])
  }

  function NameRecords(o: Option<Bytes>): seq<Record> { if o.None? then [] else [Comparator(o.value)] }

  function NumberRecords(f: Field, o: Option<nat>): seq<Record> { if o.None? then [] else [Number(f, o.value)] }

  function Pointers(ps: seq<(nat, Bytes)>): (r: seq<Record>)
    ensures |r| == |ps| && forall i :: 0 <= i < |ps| ==> r[i] == CompactPointer(ps[i].0, ps[i].1)
  {
    seq(|ps|, i requires 0 <= i < |ps| => CompactPointer(ps[i].0, ps[i].1))
  }

  function Deletions(ds: seq<(nat, nat)>): (r: seq<Record>)
    ensures |r| == |ds| && forall i :: 0 <= i < |ds| ==> r[i] == DeletedFile(ds[i].0, ds[i].1)
  {
    seq(|ds|, i requires 0 <= i < |ds| => DeletedFile(ds[i].0, ds[i].1))
  }

  function Additions(fs: seq<NewFile>): (r: seq<Record>)
    ensures |r| == |fs| && forall i :: 0 <= i < |fs| ==> r[i] == AddedFile(fs[i])
  {
    seq(|fs|, i requires 0 <= i < |fs| => AddedFile(fs[i]))
  }

  function Scalars(e: Edit): seq<Record> {
    NameRecords(e.comparator) + NumberRecords(LogNumber, e.logNumber) + NumberRecords(PrevLogNumber, e.prevLogNumber)
    + NumberRecords(NextFileNumber, e.nextFile) + NumberRecords(LastSequence, e.lastSequence)
  }

  /** The records of an edit, in the order they are written. */
  function Records(e: Edit): seq<Record> {
    Scalars(e) + Pointers(e.compactPointers) + Deletions(e.deleted) + Additions(e.added)
  }

  /** What one record does to the edit being read. */
  function Applied(e: Edit, r: Record): Edit {
    match r
    case Comparator(name) => e.(comparator := Some(name))
    case Number(LogNumber, n) => e.(logNumber := Some(n))
    case Number(PrevLogNumber, n) => e.(prevLogNumber := Some(n))
    case Number(NextFileNumber, n) => e.(nextFile := Some(n))
    case Number(LastSequence, n) => e.(lastSequence := Some(n))
    case CompactPointer(level, key) => e.(compactPointers := e.compactPointers + [(level, key)])
    case DeletedFile(level, n) => e.(deleted := Inserted(e.deleted, (level, n)))
    case AddedFile(f) => e.(added := e.added + [f])
  }

  function AppliedAll(e: Edit, rs: seq<Record>): Edit {
    if rs == [] then e else Applied(AppliedAll(e, rs[..|rs| - 1]), rs[|rs| - 1])
  }

  // ---------- reading ----------

  function ReadLevel(input: Bytes): Option<(nat, Bytes)> {
    match ReadVarint32(input)
    case None => None
    case Some((v, rest)) => if v < Versions.NUM_LEVELS then Some((v, rest)) else None
  }

  function ReadFile(input: Bytes): Option<(Record, Bytes)> {
    match ReadLevel(input)
    case None => None
    case Some((level, i1)) =>
      match ReadVarint64(i1)
      case None => None
      case Some((number, i2)) =>
        match ReadVarint64(i2)
        case None => None
        case Some((size, i3)) =>
          match ReadPrefixed(i3)
          case None => None
          case Some((smallest, i4)) =>
            match ReadPrefixed(i4)
            case None => None
            case Some((largest, i5)) => Some((AddedFile(NewFile(level, number, size, smallest, largest)), i5))
  }

  function ReadNumber(input: Bytes, f: Field): Option<(Record, Bytes)> {
    match ReadVarint64(input)
    case None => None
    case Some((n, rest)) => Some((Number(f, n), rest))
  }

  function ReadBody(tag: nat, input: Bytes): Option<(Record, Bytes)> {
    if tag == 1 then
      match ReadPrefixed(input)
      case None => None
      case Some((name, rest)) => Some((Comparator(name), rest))
    else if tag == 2 then ReadNumber(input, LogNumber)
    else if tag == 9 then ReadNumber(input, PrevLogNumber)
    else if tag == 3 then ReadNumber(input, NextFileNumber)
    else if tag == 4 then ReadNumber(input, LastSequence)
    else if tag == 5 then
      match ReadLevel(input)
      case None => None
      case Some((level, i1)) =>
        (match ReadPrefixed(i1)
         case None => None
         case Some((key, rest)) => Some((CompactPointer(level, key), rest)))
    else if tag == 6 then
      match ReadLevel(input)
      case None => None
      case Some((level, i1)) =>
        (match ReadVarint64(i1)
         case None => None
         case Some((n, rest)) => Some((DeletedFile(level, n), rest)))
    else if tag == 7 then ReadFile(input)
    else None
  }

  lemma NumbersShorten(input: Bytes)
    ensures ReadVarint32(input).Some? ==> |ReadVarint32(input).value.1| < |input|
    ensures ReadVarint64(input).Some? ==> |ReadVarint64(input).value.1| < |input|
    ensures ReadPrefixed(input).Some? ==> |ReadPrefixed(input).value.1| < |input|
    ensures ReadLevel(input).Some? ==> |ReadLevel(input).value.1| < |input|
  {
    hide ReadVarint;
    ReadVarintShortens(input, 1, 5, 0, TWO_32);
    ReadVarintShortens(input, 1, 10, 0, TWO_64);
  }

  lemma FileShortens(input: Bytes)
    ensures ReadFile(input).Some? ==> |ReadFile(input).value.1| < |input|
  {
    hide ReadVarint32, ReadVarint64, ReadPrefixed, ReadLevel;
    NumbersShorten(input);
    if ReadFile(input).Some? {
      var i1 := ReadLevel(input).value.1;
      var i2 := ReadVarint64(i1).value.1;
      var i3 := ReadVarint64(i2).value.1;
      var i4 := ReadPrefixed(i3).value.1;
      NumbersShorten(i1);
      NumbersShorten(i2);
      NumbersShorten(i3);
      NumbersShorten(i4);
    }
  }

  lemma BodyShortens(tag: nat, input: Bytes)
    ensures ReadBody(tag, input).Some? ==> |ReadBody(tag, input).value.1| < |input|
  {
    hide ReadVarint32, ReadVarint64, ReadPrefixed, ReadLevel, ReadFile;
    NumbersShorten(input);
    FileShortens(input);
    if ReadLevel(input).Some? {
      NumbersShorten(ReadLevel(input).value.1);
    }
  }

  function ReadRecord(input: Bytes): Option<(Record, Bytes)> {
    match ReadVarint32(input)
    case None => None
    case Some((tag, rest)) => ReadBody(tag, rest)
  }

  lemma RecordShortens(input: Bytes)
    ensures ReadRecord(input).Some? ==> |ReadRecord(input).value.1| < |input|
  {
    hide ReadVarint32, ReadBody;
    NumbersShorten(input);
    if ReadVarint32(input).Some? {
      BodyShortens(ReadVarint32(input).value.0, ReadVarint32(input).value.1);
    }
  }

  /** What DecodeFrom makes of the input, starting from `e`, and whether it accepts all of it. */
  function Decoded(input: Bytes, e: Edit): (Edit, bool)
    decreases |input|
  {
    RecordShortens(input);
    match ReadRecord(input)
    case None => (e, input == [])
    case Some((r, rest)) => Decoded(rest, Applied(e, r))
  }

  // ---------- round trip ----------

  predicate GoodString(s: Bytes) { |s| < TWO_32 }

  predicate GoodRecord(r: Record) {
    match r
    case Comparator(name) => GoodString(name)
    case CompactPointer(level, key) => level < Versions.NUM_LEVELS && GoodString(key)
    case DeletedFile(level, n) => level < Versions.NUM_LEVELS && n < TWO_64
    case AddedFile(f) => f.level < Versions.NUM_LEVELS && f.number < TWO_64 && f.size < TWO_64 && GoodString(f.smallest)
                         && GoodString(f.largest)
    case Number(_, n) => n < TWO_64
  }

  /** Numbers fit their types, levels exist, and the deleted files are a set. */
  ghost predicate GoodEdit(e: Edit) { Increasing(e.deleted) && forall r :: r in Records(e) ==> GoodRecord(r) }

  lemma LevelRoundTrip(level: nat, rest: Bytes)
    requires level < Versions.NUM_LEVELS
    ensures ReadLevel(Varint(level) + rest) == Some((level, rest))
  {
    hide ReadVarint32;
    Varint32RoundTrip(level, rest);
  }

  lemma FileRoundTrip(f: NewFile, rest: Bytes)
    requires GoodRecord(AddedFile(f))
    ensures ReadFile(Body(AddedFile(f)) + rest) == Some((AddedFile(f), rest))
  {
    hide ReadVarint64, ReadPrefixed, ReadLevel, Varint, Prefixed;
    var i4 := Prefixed(f.largest) + rest;
    var i3 := Prefixed(f.smallest) + i4;
    var i2 := Varint(f.size) + i3;
    var i1 := Varint(f.number) + i2;
    assert Body(AddedFile(f)) + rest == Varint(f.level) + i1;
    LevelRoundTrip(f.level, i1);
    Varint64RoundTrip(f.number, i2);
    Varint64RoundTrip(f.size, i3);
    PrefixedRoundTrip(f.smallest, i4);
    PrefixedRoundTrip(f.largest, rest);
  }

  lemma BodyRoundTrip(r: Record, rest: Bytes)
    requires GoodRecord(r)
    ensures ReadBody(Tag(r), Body(r) + rest) == Some((r, rest))
  {
    hide ReadVarint64, ReadPrefixed, ReadLevel, Varint, Prefixed, ReadFile;
    match r
    case Comparator(name) => PrefixedRoundTrip(name, rest);
    case CompactPointer(level, key) =>
      assert Body(r) + rest == Varint(level) + (Prefixed(key) + rest);
      LevelRoundTrip(level, Prefixed(key) + rest);
      PrefixedRoundTrip(key, rest);
    case DeletedFile(level, n) =>
      assert Body(r) + rest == Varint(level) + (Varint(n) + rest);
      LevelRoundTrip(level, Varint(n) + rest);
      Varint64RoundTrip(n, rest);
    case AddedFile(f) => FileRoundTrip(f, rest);
    case Number(_, n) => Varint64RoundTrip(n, rest);
  }

  lemma RecordRoundTrip(r: Record, rest: Bytes)
    requires GoodRecord(r)
    ensures ReadRecord(RecordBytes(r) + rest) == Some((r, rest))
  {
    hide ReadVarint32, ReadBody, Varint, Body;
    assert RecordBytes(r) + rest == Varint(Tag(r)) + (Body(r) + rest);
    Varint32RoundTrip(Tag(r), Body(r) + rest);
    BodyRoundTrip(r, rest);
  }

  /** Written records are read one by one, then reading goes on behind them. */
  lemma {:induction false} RecordsReadBack(rs: seq<Record>, rest: Bytes, e: Edit)
    requires forall r :: r in rs ==> GoodRecord(r)
    ensures Decoded(AllBytes(rs) + rest, e) == Decoded(rest, AppliedAll(e, rs))
    decreases |rs|
  {
    hide Decoded, GoodRecord, RecordBytes, Applied, ReadRecord;
    if rs == [] {
      assert AllBytes(rs) + rest == rest;
    } else {
      var front, last := rs[..|rs| - 1], rs[|rs| - 1];
      var behind := RecordBytes(last) + rest;
      assert AllBytes(rs) + rest == AllBytes(front) + behind;
      RecordsReadBack(front, behind, e);
      RecordRoundTrip(last, rest);
      DecodedStep(behind, AppliedAll(e, front));
    }
  }

  lemma DecodedStep(input: Bytes, e: Edit)
    ensures ReadRecord(input) == None ==> Decoded(input, e) == (e, input == [])
    ensures ReadRecord(input).Some? ==>
              Decoded(input, e) == Decoded(ReadRecord(input).value.1, Applied(e, ReadRecord(input).value.0))
  {
    hide ReadRecord, Applied;
  }

  lemma {:induction false} AppliedConcat(e: Edit, a: seq<Record>, b: seq<Record>)
    ensures AppliedAll(e, a + b) == AppliedAll(AppliedAll(e, a), b)
    decreases |b|
  {
    hide Applied;
    if b == [] {
      assert a + b == a;
    } else {
      assert (a + b)[..|a + b| - 1] == a + b[..|b| - 1];
      AppliedConcat(e, a, b[..|b| - 1]);
    }
  }

  lemma {:induction false} PointersApplied(e: Edit, ps: seq<(nat, Bytes)>)
    ensures AppliedAll(e, Pointers(ps)) == e.(compactPointers := e.compactPointers + ps)
    decreases |ps|
  {
    if ps == [] {
      assert e.compactPointers + ps == e.compactPointers;
    } else {
      var front := ps[..|ps| - 1];
      PointersApplied(e, front);
      assert Pointers(ps)[..|ps| - 1] == Pointers(front);
      assert ps == front + [ps[|ps| - 1]];
      assert e.compactPointers + ps == e.compactPointers + front + [ps[|ps| - 1]];
    }
  }

  lemma {:induction false} DeletionsApplied(e: Edit, ds: seq<(nat, nat)>)
    requires e.deleted == [] && Increasing(ds)
    ensures AppliedAll(e, Deletions(ds)) == e.(deleted := ds)
    decreases |ds|
  {
    if ds != [] {
      var front, last := ds[..|ds| - 1], ds[|ds| - 1];
      DeletionsApplied(e, front);
      assert Deletions(ds)[..|ds| - 1] == Deletions(front);
      assert ds == front + [last];
      InsertedLast(front, last);
    }
  }

  lemma {:induction false} AdditionsApplied(e: Edit, fs: seq<NewFile>)
    ensures AppliedAll(e, Additions(fs)) == e.(added := e.added + fs)
    decreases |fs|
  {
    if fs == [] {
      assert e.added + fs == e.added;
    } else {
      var front := fs[..|fs| - 1];
      AdditionsApplied(e, front);
      assert Additions(fs)[..|fs| - 1] == Additions(front);
      assert fs == front + [fs[|fs| - 1]];
      assert e.added + fs == e.added + front + [fs[|fs| - 1]];
    }
  }

  lemma OneApplied(e: Edit, r: Record)
    ensures AppliedAll(e, [r]) == Applied(e, r) && AppliedAll(e, []) == e
  {
    hide Applied;
    assert AppliedAll(e, [r][..0]) == e;
  }

  lemma NameApplied(e: Edit, o: Option<Bytes>)
    ensures AppliedAll(e, NameRecords(o)) == if o.None? then e else e.(comparator := o)
  {
    OneApplied(e, Comparator(if o.Some? then o.value else []));
  }

  lemma NumberApplied(e: Edit, f: Field, o: Option<nat>)
    ensures AppliedAll(e, NumberRecords(f, o)) == if o.None? then e else Applied(e, Number(f, o.value))
  {
    hide Applied;
    OneApplied(e, Number(f, if o.Some? then o.value else 0));
  }

  lemma ScalarsApplied(e: Edit, d: Edit)
    requires d.comparator == None && d.logNumber == None && d.prevLogNumber == None && d.nextFile == None
    requires d.lastSequence == None
    ensures AppliedAll(d, Scalars(e)) ==
              d.(comparator := e.comparator, logNumber := e.logNumber, prevLogNumber := e.prevLogNumber,
                                            nextFile := e.nextFile, lastSequence := e.lastSequence)
  {
    hide AppliedAll, NameRecords, NumberRecords;
    var a, b := NameRecords(e.comparator), NumberRecords(LogNumber, e.logNumber);
    var c := NumberRecords(PrevLogNumber, e.prevLogNumber);
    var f, g := NumberRecords(NextFileNumber, e.nextFile), NumberRecords(LastSequence, e.lastSequence);
    AppliedConcat(d, a + b + c + f, g);
    AppliedConcat(d, a + b + c, f);
    AppliedConcat(d, a + b, c);
    AppliedConcat(d, a, b);
    NameApplied(d, e.comparator);
    var d1 := AppliedAll(d, a);
    NumberApplied(d1, LogNumber, e.logNumber);
    var d2 := AppliedAll(d1, b);
    NumberApplied(d2, PrevLogNumber, e.prevLogNumber);
    var d3 := AppliedAll(d2, c);
    NumberApplied(d3, NextFileNumber, e.nextFile);
    NumberApplied(AppliedAll(d3, f), LastSequence, e.lastSequence);
  }

  /** Clear() resets everything but the compaction pointers. */
  function Cleared(e: Edit): Edit { NO_EDIT.(compactPointers := e.compactPointers) }

  lemma RecordsApplied(e: Edit, d: Edit)
    requires Increasing(e.deleted)
    ensures AppliedAll(Cleared(d), Records(e)) == e.(compactPointers := d.compactPointers + e.compactPointers)
  {
    hide AppliedAll, Scalars, Pointers, Deletions, Additions, Increasing;
    var s, p, x, a := Scalars(e), Pointers(e.compactPointers), Deletions(e.deleted), Additions(e.added);
    AppliedConcat(Cleared(d), s + p + x, a);
    AppliedConcat(Cleared(d), s + p, x);
    AppliedConcat(Cleared(d), s, p);
    ScalarsApplied(e, Cleared(d));
    var d1 := AppliedAll(Cleared(d), s);
    PointersApplied(d1, e.compactPointers);
    var d2 := AppliedAll(d1, p);
    DeletionsApplied(d2, e.deleted);
    AdditionsApplied(AppliedAll(d2, x), e.added);
    assert [] + e.added == e.added;
  }

  /**
   DecodeFrom undoes EncodeTo exactly when the object read into holds no
   compaction pointers yet; otherwise the old ones stay in front.
   */
  lemma EncodeThenDecode(e: Edit, into: Edit)
    requires GoodEdit(e)
    ensures Decoded(AllBytes(Records(e)), Cleared(into)) ==
              (e.(compactPointers := into.compactPointers + e.compactPointers), true)
    ensures Decoded(AllBytes(Records(e)), Cleared(into)) == (e, true) <==> into.compactPointers == []
  {
    hide Decoded, Records, AllBytes, AppliedAll, Increasing, GoodRecord;
    var bytes := AllBytes(Records(e));
    RecordsReadBack(Records(e), [], Cleared(into));
    assert bytes + [] == bytes;
    RecordsApplied(e, into);
    NothingLeft(AppliedAll(Cleared(into), Records(e)));
    assert |into.compactPointers + e.compactPointers| == |into.compactPointers| + |e.compactPointers|;
    assert into.compactPointers == [] ==> into.compactPointers + e.compactPointers == e.compactPointers;
  }

  lemma NothingLeft(e: Edit)
    ensures Decoded([], e) == (e, true)
  {
  }

  /** Different edits are written differently. */
  lemma EncodingIsInjective(a: Edit, b: Edit)
    requires GoodEdit(a) && GoodEdit(b) && AllBytes(Records(a)) == AllBytes(Records(b))
    ensures a == b
  {
    hide Decoded, GoodEdit, AllBytes, Records;
    EncodeThenDecode(a, NO_EDIT);
    EncodeThenDecode(b, NO_EDIT);
  }

  // ---------- the object ----------

  /** Levels and string lengths are written as 32-bit integers. */
  predicate Fits(e: Edit) {
    && (e.comparator.Some? ==> GoodString(e.comparator.value))
    && (forall p :: p in e.compactPointers ==> p.0 < TWO_32 && GoodString(p.1))
    && (forall d :: d in e.deleted ==> d.0 < TWO_32)
    && (forall f :: f in e.added ==> f.level < TWO_32 && GoodString(f.smallest) && GoodString(f.largest))
  }

  method PutPrefixed(dst: Bytes, s: Bytes) returns (r: Bytes)
    requires GoodString(s)
    ensures r == dst + Prefixed(s)
  {
    hide Varint;
    var length := EncodeVarint32(|s|);
    r := dst + length + s;
    assert dst + length + s == dst + (length + s);
  }

  method PutNumber(dst: Bytes, tag: nat, n: nat) returns (r: Bytes)
    requires tag < TWO_32
    ensures r == dst + (Varint(tag) + Varint(n))
  {
    hide Varint;
    var b := EncodeVarint32(tag);
    var c := EncodeVarint64(n);
    r := dst + b + c;
    assert dst + b + c == dst + (b + c);
  }

  method PutComparator(dst: Bytes, name: Bytes) returns (r: Bytes)
    requires GoodString(name)
    ensures r == dst + RecordBytes(Comparator(name))
  {
    hide Varint, Prefixed;
    var tag := EncodeVarint32(1);
    r := PutPrefixed(dst + tag, name);
    assert dst + tag + Prefixed(name) == dst + (tag + Prefixed(name));
  }

  method PutPointer(dst: Bytes, level: nat, key: Bytes) returns (r: Bytes)
    requires level < TWO_32 && GoodString(key)
    ensures r == dst + RecordBytes(CompactPointer(level, key))
  {
    hide Varint, Prefixed;
    var tag := EncodeVarint32(5);
    var l := EncodeVarint32(level);
    r := PutPrefixed(dst + tag + l, key);
    assert dst + tag + l + Prefixed(key) == dst + (tag + (l + Prefixed(key)));
  }

  method PutDeletion(dst: Bytes, level: nat, n: nat) returns (r: Bytes)
    requires level < TWO_32
    ensures r == dst + RecordBytes(DeletedFile(level, n))
  {
    hide Varint;
    var tag := EncodeVarint32(6);
    r := PutNumber(dst + tag, level, n);
    assert dst + tag + (Varint(level) + Varint(n)) == dst + (tag + (Varint(level) + Varint(n)));
  }

  method PutFile(dst: Bytes, f: NewFile) returns (r: Bytes)
    requires f.level < TWO_32 && GoodString(f.smallest) && GoodString(f.largest)
    ensures r == dst + RecordBytes(AddedFile(f))
  {
    hide Varint, Prefixed;
    var tag := EncodeVarint32(7);
    var level := EncodeVarint32(f.level);
    var number := EncodeVarint64(f.number);
    var size := EncodeVarint64(f.size);
    r := PutPrefixed(dst + tag + level + number + size, f.smallest);
    r := PutPrefixed(r, f.largest);
    ghost var s, t := Prefixed(f.smallest), Prefixed(f.largest);
    assert dst + tag + level + number + size + s + t == dst + (tag + (level + number + size + s + t));
  }

  lemma AllBytesStep(rs: seq<Record>, r: Record)
    ensures AllBytes(rs + [r]) == AllBytes(rs) + RecordBytes(r)
  {
    hide RecordBytes;
    assert (rs + [r])[..|rs|] == rs;
  }

  lemma PointersStep(ps: seq<(nat, Bytes)>, i: nat)
    requires i < |ps|
    ensures Pointers(ps[..i + 1]) == Pointers(ps[..i]) + [CompactPointer(ps[i].0, ps[i].1)]
  {
  }

  lemma DeletionsStep(ds: seq<(nat, nat)>, i: nat)
    requires i < |ds|
    ensures Deletions(ds[..i + 1]) == Deletions(ds[..i]) + [DeletedFile(ds[i].0, ds[i].1)]
  {
  }

  lemma AdditionsStep(fs: seq<NewFile>, i: nat)
    requires i < |fs|
    ensures Additions(fs[..i + 1]) == Additions(fs[..i]) + [AddedFile(fs[i])]
  {
  }

  /** The record of an optional field, if it is there. */
  method PutOptional(dst: Bytes, f: Field, o: Option<nat>) returns (r: Bytes)
    ensures r == if o.None? then dst else dst + RecordBytes(Number(f, o.value))
  {
    hide Varint;
    r := dst;
    if o.Some? {
      r := PutNumber(dst, FieldTag(f), o.value);
    }
  }

  lemma NumberAppended(w: seq<Record>, f: Field, o: Option<nat>)
    ensures AllBytes(w + NumberRecords(f, o)) == if o.None? then AllBytes(w)
                                                 else AllBytes(w) + RecordBytes(Number(f, o.value))
  {
    hide AllBytes, RecordBytes;
    if o.None? {
      assert w + [] == w;
    } else {
      AllBytesStep(w, Number(f, o.value));
    }
  }

  lemma NoBytes()
    ensures AllBytes([]) == []
  {
  }

  method GetLevel(input: Bytes) returns (r: Option<(nat, Bytes)>)
    ensures r == ReadLevel(input)
  {
    hide ReadVarint;
    var v := GetVarint(input, 5, TWO_32);
    if v.Some? && v.value.0 < Versions.NUM_LEVELS {
      r := v;
    } else {
      r := None;
    }
  }

  method GetFile(input: Bytes) returns (r: Option<(NewFile, Bytes)>)
    ensures r.Some? == ReadFile(input).Some?
    ensures r.Some? ==> ReadFile(input).value == (AddedFile(r.value.0), r.value.1)
  {
    hide ReadVarint, ReadPrefixed, ReadLevel;
    r := None;
    var level := GetLevel(input);
    if level.Some? {
      var number := GetVarint(level.value.1, 10, TWO_64);
      if number.Some? {
        var size := GetVarint(number.value.1, 10, TWO_64);
        if size.Some? {
          var smallest := GetLengthPrefixedSlice(size.value.1);
          if smallest.Some? {
            var largest := GetLengthPrefixedSlice(smallest.value.1);
            if largest.Some? {
              r := Some((NewFile(level.value.0, number.value.0, size.value.0, smallest.value.0, largest.value.0),
                         largest.value.1));
            }
          }
        }
      }
    }
  }

  /** Each pair of a has_ flag and its field is one optional value. */
  class VersionEdit {
    var comparator: Option<Bytes>
    var logNumber: Option<nat>
    var prevLogNumber: Option<nat>
    var nextFileNumber: Option<nat>
    var lastSequence: Option<nat>
    var compactPointers: seq<(nat, Bytes)>
    var deletedFiles: seq<(nat, nat)>
    var newFiles: seq<NewFile>

    function Value(): Edit
      reads this
    {
      Edit(comparator, logNumber, prevLogNumber, nextFileNumber, lastSequence, compactPointers, deletedFiles, newFiles)
    }

    constructor ()
      ensures Value() == NO_EDIT
    {
      comparator, logNumber, prevLogNumber, nextFileNumber, lastSequence := None, None, None, None, None;
      compactPointers, deletedFiles, newFiles := [], [], [];
    }

    method Clear()
      modifies this
      ensures Value() == Cleared(old(Value()))
    {
      comparator, logNumber, prevLogNumber, lastSequence, nextFileNumber := None, None, None, None, None;
      deletedFiles := [];
      newFiles := [];
    }

    method EncodeTo() returns (dst: Bytes)
      requires Fits(Value())
      ensures dst == AllBytes(Records(Value()))
    {
      hide Varint, Prefixed, AllBytes, RecordBytes, Scalars, Pointers, Deletions, Additions;
      ghost var e := Value();
      dst := PutScalars();
      dst := PutPointers(dst, Scalars(e));
      dst := PutDeletions(dst, Scalars(e) + Pointers(e.compactPointers));
      dst := PutAdditions(dst, Scalars(e) + Pointers(e.compactPointers) + Deletions(e.deleted));
    }

    method PutScalars() returns (dst: Bytes)
      requires Fits(Value())
      ensures dst == AllBytes(Scalars(Value()))
    {
      hide AllBytes, RecordBytes, NumberRecords;
      NoBytes();
      dst := [];
      if comparator.Some? {
        dst := PutComparator(dst, comparator.value);
        AllBytesStep([], Comparator(comparator.value));
        assert [] + [Comparator(comparator.value)] == [Comparator(comparator.value)];
      }
      ghost var w := NameRecords(comparator);
      NumberAppended(w, LogNumber, logNumber);
      dst := PutOptional(dst, LogNumber, logNumber);
      w := w + NumberRecords(LogNumber, logNumber);
      NumberAppended(w, PrevLogNumber, prevLogNumber);
      dst := PutOptional(dst, PrevLogNumber, prevLogNumber);
      w := w + NumberRecords(PrevLogNumber, prevLogNumber);
      NumberAppended(w, NextFileNumber, nextFileNumber);
      dst := PutOptional(dst, NextFileNumber, nextFileNumber);
      w := w + NumberRecords(NextFileNumber, nextFileNumber);
      NumberAppended(w, LastSequence, lastSequence);
      dst := PutOptional(dst, LastSequence, lastSequence);
    }

    method PutPointers(start: Bytes, ghost w: seq<Record>) returns (dst: Bytes)
      requires Fits(Value()) && start == AllBytes(w)
      ensures dst == AllBytes(w + Pointers(compactPointers))
    {
      hide AllBytes, RecordBytes, Pointers;
      dst := start;
      var i := 0;
      assert Pointers(compactPointers[..0]) == [] && w + [] == w;
      while i < |compactPointers|
        invariant 0 <= i <= |compactPointers| && dst == AllBytes(w + Pointers(compactPointers[..i]))
      {
        var p := compactPointers[i];
        assert p in Value().compactPointers;
        dst := PutPointer(dst, p.0, p.1);
        AllBytesStep(w + Pointers(compactPointers[..i]), CompactPointer(p.0, p.1));
        PointersStep(compactPointers, i);
        assert w + Pointers(compactPointers[..i]) + [CompactPointer(p.0, p.1)] ==
          w + Pointers(compactPointers[..i + 1]);
        i := i + 1;
      }
      assert compactPointers[..i] == compactPointers;
    }

    method PutDeletions(start: Bytes, ghost w: seq<Record>) returns (dst: Bytes)
      requires Fits(Value()) && start == AllBytes(w)
      ensures dst == AllBytes(w + Deletions(deletedFiles))
    {
      hide AllBytes, RecordBytes, Deletions;
      dst := start;
      var i := 0;
      assert Deletions(deletedFiles[..0]) == [] && w + [] == w;
      while i < |deletedFiles|
        invariant 0 <= i <= |deletedFiles| && dst == AllBytes(w + Deletions(deletedFiles[..i]))
      {
        var d := deletedFiles[i];
        assert d in Value().deleted;
        dst := PutDeletion(dst, d.0, d.1);
        AllBytesStep(w + Deletions(deletedFiles[..i]), DeletedFile(d.0, d.1));
        DeletionsStep(deletedFiles, i);
        assert w + Deletions(deletedFiles[..i]) + [DeletedFile(d.0, d.1)] == w + Deletions(deletedFiles[..i + 1]);
        i := i + 1;
      }
      assert deletedFiles[..i] == deletedFiles;
    }

    method PutAdditions(start: Bytes, ghost w: seq<Record>) returns (dst: Bytes)
      requires Fits(Value()) && start == AllBytes(w)
      ensures dst == AllBytes(w + Additions(newFiles))
    {
      hide AllBytes, RecordBytes, Additions;
      dst := start;
      var i := 0;
      assert Additions(newFiles[..0]) == [] && w + [] == w;
      while i < |newFiles|
        invariant 0 <= i <= |newFiles| && dst == AllBytes(w + Additions(newFiles[..i]))
      {
        var f := newFiles[i];
        assert f in Value().added;
        dst := PutFile(dst, f);
        AllBytesStep(w + Additions(newFiles[..i]), AddedFile(f));
        AdditionsStep(newFiles, i);
        assert w + Additions(newFiles[..i]) + [AddedFile(f)] == w + Additions(newFiles[..i + 1]);
        i := i + 1;
      }
      assert newFiles[..i] == newFiles;
    }

    /** Consumes one record's payload; on success the edit has taken the record in. */
    method ReadInto(tag: nat, input: Bytes) returns (ok: bool, rest: Bytes)
      modifies this
      ensures ok == ReadBody(tag, input).Some?
      ensures ok ==>
                rest == ReadBody(tag, input).value.1 && Value() == Applied(old(Value()), ReadBody(tag, input).value.0)
      ensures !ok ==> rest == input && Value() == old(Value())
    {
      hide ReadVarint, ReadPrefixed;
      ok, rest := false, input;
      if tag == 1 {
        var s := GetLengthPrefixedSlice(input);
        if s.Some? {
          comparator, ok, rest := Some(s.value.0), true, s.value.1;
        }
      } else if tag == 2 {
        var n := GetVarint(input, 10, TWO_64);
        if n.Some? {
          logNumber, ok, rest := Some(n.value.0), true, n.value.1;
        }
      } else if tag == 9 {
        var n := GetVarint(input, 10, TWO_64);
        if n.Some? {
          prevLogNumber, ok, rest := Some(n.value.0), true, n.value.1;
        }
      } else if tag == 3 {
        var n := GetVarint(input, 10, TWO_64);
        if n.Some? {
          nextFileNumber, ok, rest := Some(n.value.0), true, n.value.1;
        }
      } else if tag == 4 {
        var n := GetVarint(input, 10, TWO_64);
        if n.Some? {
          lastSequence, ok, rest := Some(n.value.0), true, n.value.1;
        }
      } else if tag == 5 {
        var level := GetLevel(input);
        if level.Some? {
          var key := GetLengthPrefixedSlice(level.value.1);
          if key.Some? {
            compactPointers, ok, rest := compactPointers + [(level.value.0, key.value.0)], true, key.value.1;
          }
        }
      } else if tag == 6 {
        var level := GetLevel(input);
        if level.Some? {
          var n := GetVarint(level.value.1, 10, TWO_64);
          if n.Some? {
            deletedFiles, ok, rest := Inserted(deletedFiles, (level.value.0, n.value.0)), true, n.value.1;
          }
        }
      } else if tag == 7 {
        var f := GetFile(input);
        if f.Some? {
          newFiles, ok, rest := newFiles + [f.value.0], true, f.value.1;
        }
      }
    }

    method DecodeFrom(src: Bytes) returns (ok: bool)
      modifies this
      ensures (Value(), ok) == Decoded(src, Cleared(old(Value())))
    {
      hide Decoded, ReadVarint, ReadBody, Applied, Cleared;
      Clear();
      var input := src;
      ghost var all := Decoded(src, Value());
      ok := true;
      var tag := GetVarint(input, 5, TWO_32);
      while ok && tag.Some?
        invariant ok ==> tag == ReadVarint32(input)
        invariant ok ==> Decoded(input, Value()) == all
        invariant !ok ==> (Value(), false) == all
        decreases ok, |input|
      {
        var e := Value();
        DecodedStep(input, e);
        RecordShortens(input);
        NumbersShorten(input);
        ok, input := ReadInto(tag.value.0, tag.value.1);
        if ok {
          tag := GetVarint(input, 5, TWO_32);
        }
      }
      if ok {
        DecodedStep(input, Value());
        ok := input == [];
      }
    }
  }
}
