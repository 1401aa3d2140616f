/** The log reader (db/log_reader.cc), reading from the start of the file. */
module LogReader {
  import opened Keys
  import opened Coding
  import opened LogFormat

  /** Beyond the record types: nothing more to read, and a fragment that was dropped. */
  const EOF: nat := 5
  const BAD: nat := 6

  /** `file` is what a crash left of the log made of `frags`. */
  ghost predicate IsPrefix(crc: Checksum, frags: seq<Frag>, file: Bytes) {
    Placed(frags) && AllEncodable(frags) && file <= LogBytes(crc, frags)
  }

  /** The bytes at fragment `k`, as far as the file goes. */
  lemma FragAt(crc: Checksum, frags: seq<Frag>, file: Bytes, k: nat)
    requires IsPrefix(crc, frags, file) && k < |frags|
    ensures Encodable(frags[k]) && Offset(frags, k + 1) == Offset(frags, k) + frags[k].Size()
    ensures var a := Offset(frags, k) + frags[k].pad;
            && (a + HEADER_SIZE <= |file| ==> file[a..a + HEADER_SIZE] == Header(crc, frags[k].kind, frags[k].data))
            && (Offset(frags, k + 1) <= |file| ==> file[a + HEADER_SIZE..Offset(frags, k + 1)] == frags[k].data)
  {
    hide Placed, LogBytes, Offset;
    var log, f, o := LogBytes(crc, frags), frags[k], Offset(frags, k);
    LogBytesAt(crc, frags, k);
    OffsetNext(frags, k);
    var a, e := o + f.pad, Offset(frags, k + 1);
    var bytes := log[o..e];
    assert bytes[f.pad..f.pad + HEADER_SIZE] == Header(crc, f.kind, f.data) && bytes[f.pad + HEADER_SIZE..] == f.data;
    assert log[a..a + HEADER_SIZE] == bytes[f.pad..f.pad + HEADER_SIZE];
    assert log[a + HEADER_SIZE..e] == bytes[f.pad + HEADER_SIZE..];
    assert file == log[..|file|];
    if a + HEADER_SIZE <= |file| { assert file[a..a + HEADER_SIZE] == log[a..a + HEADER_SIZE]; }
    if e <= |file| { assert file[a + HEADER_SIZE..e] == log[a + HEADER_SIZE..e]; }
  }

  lemma OffsetNext(frags: seq<Frag>, k: nat)
    requires k < |frags|
    ensures Offset(frags, k + 1) == Offset(frags, k) + frags[k].Size()
  {
  }

  function Length(header: Bytes): nat
    requires |header| >= HEADER_SIZE
  {
    var low: nat, high: nat := header[4], header[5];
    low + high * 256
  }

  function ExpectedCrc(header: Bytes): nat
    requires |header| >= HEADER_SIZE
  {
    Unmask(DecodeFixed(header[..4]) % TWO_32)
  }

  /** The type byte as the source's `char` widens it. */
  function TypeOf(header: Bytes): nat
    requires |header| >= HEADER_SIZE
  {
    var t: nat := header[6];
    if t < 128 then t else t + 0xFFFF_FF00
  }

  lemma HeaderParses(crc: Checksum, kind: nat, data: Bytes)
    requires kind < 128 && |data| < 65536
    ensures var h := Header(crc, kind, data);
            Length(h) == |data| && TypeOf(h) == kind && ExpectedCrc(h) == crc([h[6]] + data)
  {
    hide Fixed, Mask, Unmask;
    var h := Header(crc, kind, data);
    Fixed32RoundTrip(Mask(crc([kind] + data)));
    UnmaskMask(crc([kind] + data));
    assert h[..4] == Fixed32(Mask(crc([kind] + data)));
  }

  /** The state of the buffer: a stretch of one block, the file's last bytes once the end was seen. */
  ghost predicate Reading(file: Bytes, pos: nat, buffer: Bytes, eof: bool) {
    && |buffer| <= pos <= |file| && buffer == file[pos - |buffer|..pos]
    && InOneBlock(pos, |buffer|)
    && (if eof then pos == |file| else pos % BLOCK_SIZE == 0)
  }

  /** The last `n` bytes before `pos` are in one block. */
  ghost predicate InOneBlock(pos: nat, n: nat) {
    n <= pos && (n > 0 ==> (pos - n) / BLOCK_SIZE == (pos - 1) / BLOCK_SIZE)
  }

  /** At the fragment or, its padding skipped, at its header. */
  ghost predicate BeforeBody(frags: seq<Frag>, k: nat, abs: int) {
    k <= |frags| && (abs == Offset(frags, k) || (k < |frags| && abs == Offset(frags, k) + frags[k].pad))
  }

  lemma BlockRead(file: Bytes, pos: nat, n: nat)
    requires pos <= |file| && pos % BLOCK_SIZE == 0
    requires n == (if pos + BLOCK_SIZE <= |file| then BLOCK_SIZE else |file| - pos)
    ensures Reading(file, pos + n, file[pos..pos + n], n < BLOCK_SIZE)
  {
  }

  /** Dropping the short rest of a block drops exactly the padding of the next fragment. */
  lemma RestIsPadding(crc: Checksum, frags: seq<Frag>, file: Bytes, k: nat, pos: nat, buffer: Bytes)
    requires IsPrefix(crc, frags, file) && Reading(file, pos, buffer, false) && |buffer| < HEADER_SIZE
    requires BeforeBody(frags, k, pos - |buffer|)
    ensures BeforeBody(frags, k, pos)
  {
    hide PadAt, Room, LogBytes, Offset, InOneBlock;
    if k < |frags| {
      assert PlacedAt(Offset(frags, k), frags[k]);
      PaddingAt(pos, |buffer|);
      if pos - |buffer| == Offset(frags, k) + frags[k].pad { NoPaddingTwice(Offset(frags, k)); }
    } else {
      OffsetIsEnd(crc, frags, file);
    }
  }

  lemma PaddingAt(pos: nat, n: nat)
    requires pos % BLOCK_SIZE == 0 && n < HEADER_SIZE && n <= pos
    ensures PadAt(pos - n) == n
  {
  }

  lemma NoPaddingTwice(offset: nat)
    ensures PadAt(offset + PadAt(offset)) == 0
  {
  }

  lemma OffsetIsEnd(crc: Checksum, frags: seq<Frag>, file: Bytes)
    requires IsPrefix(crc, frags, file)
    ensures |file| <= Offset(frags, |frags|)
  {
    LogBytesLength(crc, frags);
  }

  /** At the end of the file with less than a header left, the next fragment is not all there. */
  lemma EndsBefore(crc: Checksum, frags: seq<Frag>, file: Bytes, k: nat, pos: nat, buffer: Bytes)
    requires IsPrefix(crc, frags, file) && Reading(file, pos, buffer, true) && |buffer| < HEADER_SIZE
    requires BeforeBody(frags, k, pos - |buffer|)
    ensures k == |frags| || Offset(frags, k + 1) > |file|
  {
    if k < |frags| { OffsetNext(frags, k); }
  }

  /** With a header's worth of bytes in the buffer, the reader is at a fragment's header. */
  lemma AtHeader(crc: Checksum, frags: seq<Frag>, file: Bytes, k: nat, pos: nat, buffer: Bytes, eof: bool)
    requires IsPrefix(crc, frags, file) && Reading(file, pos, buffer, eof) && |buffer| >= HEADER_SIZE
    requires BeforeBody(frags, k, pos - |buffer|)
    ensures k < |frags| && PlacedAt(Offset(frags, k), frags[k]) && pos - |buffer| == Offset(frags, k) + frags[k].pad
  {
    hide PadAt, Room, Offset, LogBytes, Reading;
    ReadingBounds(file, pos, buffer, eof);
    if k == |frags| { OffsetIsEnd(crc, frags, file); }
    assert k < |frags|;
    assert PlacedAt(Offset(frags, k), frags[k]);
    BodyStart(Offset(frags, k), pos, |buffer|, pos - |buffer|);
  }

  /** That header parses to what the writer put there. */
  lemma HeaderIs(crc: Checksum, frags: seq<Frag>, file: Bytes, k: nat, pos: nat, buffer: Bytes)
    requires IsPrefix(crc, frags, file) && HEADER_SIZE <= |buffer| <= pos <= |file|
    requires buffer == file[pos - |buffer|..pos]
    requires k < |frags| && PlacedAt(Offset(frags, k), frags[k]) && pos - |buffer| == Offset(frags, k) + frags[k].pad
    ensures var h, f := buffer[..HEADER_SIZE], frags[k];
            f.kind != ZERO_TYPE && f.kind <= LAST && TypeOf(h) == f.kind && Length(h) == |f.data|
            && ExpectedCrc(h) == crc([h[6]] + f.data)
  {
    hide PadAt, Room, Header, Offset, LogBytes, Length, TypeOf, ExpectedCrc, IsPrefix;
    FragAt(crc, frags, file, k);
    HeadOfBuffer(file, pos - |buffer|, pos);
    HeaderParses(crc, frags[k].kind, frags[k].data);
  }

  lemma HeadOfBuffer(file: Bytes, from: nat, upto: nat)
    requires from + HEADER_SIZE <= upto <= |file|
    ensures file[from..upto][..HEADER_SIZE] == file[from..from + HEADER_SIZE]
  {
  }

  /** Its payload follows, or the file ends inside it. */
  lemma PayloadIs(crc: Checksum, frags: seq<Frag>, file: Bytes, k: nat, pos: nat, buffer: Bytes, eof: bool)
    requires IsPrefix(crc, frags, file) && Reading(file, pos, buffer, eof) && |buffer| >= HEADER_SIZE
    requires k < |frags| && PlacedAt(Offset(frags, k), frags[k]) && pos - |buffer| == Offset(frags, k) + frags[k].pad
    ensures var f := frags[k];
            && (HEADER_SIZE + |f.data| > |buffer| ==> eof && Offset(frags, k + 1) > |file|)
            && (HEADER_SIZE + |f.data| <= |buffer| ==>
                  Offset(frags, k + 1) <= |file| && buffer[HEADER_SIZE..HEADER_SIZE + |f.data|] == f.data
                  && pos - |buffer| + HEADER_SIZE + |f.data| == Offset(frags, k + 1))
  {
    hide PadAt, Room, Header, Offset, LogBytes, IsPrefix, InOneBlock;
    var f, abs := frags[k], pos - |buffer|;
    FragAt(crc, frags, file, k);
    if HEADER_SIZE + |f.data| <= |buffer| {
      assert buffer[HEADER_SIZE..HEADER_SIZE + |f.data|] == file[abs + HEADER_SIZE..abs + HEADER_SIZE + |f.data|];
    } else {
      StaysInBlock(Offset(frags, k), pos, |buffer|, |f.data|);
    }
  }

  /** With a header's worth of bytes left in the block there is no padding to skip. */
  lemma BodyStart(offset: nat, pos: nat, n: nat, abs: nat)
    requires InOneBlock(pos, n) && HEADER_SIZE <= n && abs == pos - n
    requires (abs == offset || abs == offset + PadAt(offset))
    ensures abs == offset + PadAt(offset)
  {
  }

  /** A fragment that outgrows the bytes read so far is in a block the file does not fill. */
  lemma StaysInBlock(offset: nat, pos: nat, n: nat, length: nat)
    requires InOneBlock(pos, n) && HEADER_SIZE <= n && pos - n == offset + PadAt(offset)
    requires length <= Room(offset) && HEADER_SIZE + length > n
    ensures pos % BLOCK_SIZE != 0
  {
  }

  lemma ReadingBounds(file: Bytes, pos: nat, buffer: Bytes, eof: bool)
    requires Reading(file, pos, buffer, eof)
    ensures |buffer| <= pos <= |file| && buffer == file[pos - |buffer|..pos] && InOneBlock(pos, |buffer|)
    ensures if eof then pos == |file| else pos % BLOCK_SIZE == 0
  {
  }

  lemma Consumes(file: Bytes, pos: nat, buffer: Bytes, eof: bool, n: nat)
    requires Reading(file, pos, buffer, eof) && n <= |buffer|
    ensures Reading(file, pos, buffer[n..], eof)
  {
  }

  class Reader {
    const crc: Checksum
    const checksum: bool
    const file: Bytes
    /** How much of the file has been read, and what of it is still to be looked at. */
    var pos: nat
    var buffer: Bytes
    var eof: bool
    /** Number of corruptions reported. */
    var corruptions: nat

    ghost predicate Ok()
      reads this
    {
      Reading(file, pos, buffer, eof)
    }

    /** First byte not yet looked at. */
    ghost function Abs(): int
      reads this
    {
      pos - |buffer|
    }

    /** The reader stands before fragment `k` of the log. */
    ghost predicate At(frags: seq<Frag>, k: nat)
      reads this
    {
      IsPrefix(crc, frags, file) && k <= |frags| && Abs() == Offset(frags, k)
    }

    constructor (crc: Checksum, checksum: bool, file: Bytes)
      ensures Ok() && Abs() == 0 && corruptions == 0
      ensures this.crc == crc && this.file == file
    {
      this.crc, this.checksum, this.file := crc, checksum, file;
      pos, buffer, eof, corruptions := 0, [], false, 0;
    }

    /** Makes sure a whole header is in the buffer, skipping the trailer of a block, or finds the end of the file. */
    method FillBuffer(ghost frags: seq<Frag>, ghost k: nat) returns (more: bool)
      requires Ok()
      modifies this
      ensures Ok() && Abs() >= old(Abs()) && corruptions == old(corruptions) && (more <==> |buffer| >= HEADER_SIZE)
      ensures old(At(frags, k)) && more ==> BeforeBody(frags, k, Abs())
      ensures old(At(frags, k)) && !more ==> k == |frags| || Offset(frags, k + 1) > |file|
    {
      hide Reading, IsPrefix, Offset, InOneBlock;
      ReadingBounds(file, pos, buffer, eof);
      ghost var at := At(frags, k);
      while |buffer| < HEADER_SIZE
        invariant Ok() && Abs() >= old(Abs()) && corruptions == old(corruptions)
        invariant at ==> BeforeBody(frags, k, Abs())
        decreases if eof then 0 else 1 + |file| - pos
      {
        ReadingBounds(file, pos, buffer, eof);
        if !eof {
          if at { RestIsPadding(crc, frags, file, k, pos, buffer); }
          BlockRead(file, pos, if pos + BLOCK_SIZE <= |file| then BLOCK_SIZE else |file| - pos);
          buffer := file[pos..if pos + BLOCK_SIZE <= |file| then pos + BLOCK_SIZE else |file|];
          pos := pos + |buffer|;
          if |buffer| < BLOCK_SIZE {
            eof := true;
          }
        } else {
          if at { EndsBefore(crc, frags, file, k, pos, buffer); }
          Consumes(file, pos, buffer, eof, |buffer|);
          buffer := [];
          return false;
        }
      }
      return true;
    }

    method ReadPhysicalRecord(ghost frags: seq<Frag>, ghost k: nat) returns (kind: nat, data: Bytes)
      requires Ok()
      modifies this
      ensures Ok() && Abs() >= old(Abs()) && (kind != EOF ==> Abs() > old(Abs()))
      ensures old(At(frags, k)) && k < |frags| && Offset(frags, k + 1) <= |file| ==>
                kind == frags[k].kind && data == frags[k].data && At(frags, k + 1) && corruptions == old(corruptions)
      ensures old(At(frags, k)) && (k == |frags| || Offset(frags, k + 1) > |file|) ==>
                kind == EOF && corruptions == old(corruptions)
    {
      hide Reading, IsPrefix, Offset, FragBytes, Header, Length, TypeOf, ExpectedCrc, PlacedAt, BeforeBody;
      ghost var at := At(frags, k);
      var more := FillBuffer(frags, k);
      if !more {
        return EOF, [];
      }
      ReadingBounds(file, pos, buffer, eof);
      if at {
        AtHeader(crc, frags, file, k, pos, buffer, eof);
        HeaderIs(crc, frags, file, k, pos, buffer);
        PayloadIs(crc, frags, file, k, pos, buffer, eof);
      }
      Consumes(file, pos, buffer, eof, |buffer|);
      var header := buffer[..HEADER_SIZE];
      var length := Length(header);
      kind := TypeOf(header);
      if HEADER_SIZE + length > |buffer| {
        buffer := [];
        if !eof {
          corruptions := corruptions + 1;
          return BAD, [];
        }
        return EOF, [];
      }
      if kind == ZERO_TYPE && length == 0 {
        buffer := [];
        return BAD, [];
      }
      data := buffer[HEADER_SIZE..HEADER_SIZE + length];
      if checksum {
        if crc([header[6]] + data) != ExpectedCrc(header) {
          buffer := [];
          corruptions := corruptions + 1;
          return BAD, [];
        }
      }
      Consumes(file, pos, buffer, eof, HEADER_SIZE + length);
      buffer := buffer[HEADER_SIZE + length..];
    }

    /** The next logical record, put together from its fragments. */
    method ReadRecord(ghost frags: seq<Frag>, ghost k: nat, ghost m: nat) returns (ok: bool, record: Bytes)
      requires Ok() && (WholeRecord(frags, k, m) || k == m == |frags|)
      modifies this
      ensures Ok() && (ok ==> Abs() > old(Abs()))
      ensures old(At(frags, k)) ==> corruptions == old(corruptions) && (ok <==> k < m && Offset(frags, m) <= |file|)
      ensures old(At(frags, k)) && ok ==> At(frags, m) && record == DataOf(frags, k, m)
    {
      hide Reading, IsPrefix, Offset;
      var scratch := [];
      var inFragmentedRecord := false;
      ghost var at := At(frags, k);
      ghost var i: nat := k;
      OffsetMonotone(frags, k, m);
      ReadingBounds(file, pos, buffer, eof);
      while true
        invariant Ok() && Abs() >= old(Abs()) && k <= m <= |frags|
        invariant at ==> corruptions == old(corruptions) && At(frags, i) && k <= i && (i < m || k == i == m)
                         && Offset(frags, i) <= |file|
        invariant at ==> (inFragmentedRecord <==> i > k) && (inFragmentedRecord ==> scratch == DataOf(frags, k, i))
        decreases |file| - Abs()
      {
        ReadingBounds(file, pos, buffer, eof);
        if at && i < m { OffsetMonotone(frags, i + 1, m); KindIn(frags, k, m, i); }
        var kind, fragment := ReadPhysicalRecord(frags, i);
        ReadingBounds(file, pos, buffer, eof);
        if kind == FULL {
          if inFragmentedRecord {
            if scratch == [] {
              inFragmentedRecord := false;
            } else {
              corruptions := corruptions + 1;
            }
          }
          return true, fragment;
        } else if kind == FIRST {
          if inFragmentedRecord {
            if scratch == [] {
              inFragmentedRecord := false;
            } else {
              corruptions := corruptions + 1;
            }
          }
          scratch := fragment;
          inFragmentedRecord := true;
        } else if kind == MIDDLE {
          if !inFragmentedRecord {
            corruptions := corruptions + 1;
          } else {
            scratch := scratch + fragment;
          }
        } else if kind == LAST {
          if !inFragmentedRecord {
            corruptions := corruptions + 1;
          } else {
            scratch := scratch + fragment;
            return true, scratch;
          }
        } else if kind == EOF {
          return false, [];
        } else if kind == BAD {
          if inFragmentedRecord {
            corruptions := corruptions + 1;
            inFragmentedRecord := false;
            scratch := [];
          }
        } else {
          corruptions := corruptions + 1;
          inFragmentedRecord := false;
          scratch := [];
        }
        i := i + 1;
      }
    }
  }

  /** Fragments k to m are those of one record. */
  ghost predicate WholeRecord(frags: seq<Frag>, k: nat, m: nat) {
    k < m <= |frags| && forall i :: k <= i < m ==> frags[i].kind == Kind(i == k, i == m - 1)
  }

  function DataOf(frags: seq<Frag>, k: nat, m: nat): Bytes
    requires k <= m <= |frags|
  {
    if k == m then [] else DataOf(frags, k, m - 1) + frags[m - 1].data
  }

  lemma KindIn(frags: seq<Frag>, k: nat, m: nat, i: nat)
    requires WholeRecord(frags, k, m) && k <= i < m
    ensures frags[i].kind == Kind(i == k, i == m - 1)
  {
  }
}
