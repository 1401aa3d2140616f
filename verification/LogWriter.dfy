/** The log writer (db/log_writer.cc). */
module LogWriter {
  import opened Keys
  import opened Coding
  import opened LogFormat

  /** `blockOffset` is where a file of this length stands in its block; a full block counts as its end or its start. */
  predicate InBlock(blockOffset: nat, length: nat) {
    blockOffset <= BLOCK_SIZE && blockOffset % BLOCK_SIZE == length % BLOCK_SIZE
  }

  lemma InBlockBound(blockOffset: nat, length: nat)
    requires InBlock(blockOffset, length)
    ensures blockOffset <= BLOCK_SIZE
  {
  }

  lemma InBlockAdvances(blockOffset: nat, length: nat, n: nat)
    requires InBlock(blockOffset, length) && blockOffset + n <= BLOCK_SIZE
    ensures InBlock(blockOffset + n, length + n)
  {
  }

  lemma InBlockReopened(length: nat)
    ensures InBlock(length % BLOCK_SIZE, length)
  {
  }

  class Writer {
    const crc: Checksum
    var dest: Bytes
    var blockOffset: nat
    ghost var frags: seq<Frag>

    ghost predicate Valid()
      reads this
    {
      && Placed(frags) && AllEncodable(frags) && dest == LogBytes(crc, frags)
      && InBlock(blockOffset, |dest|)
    }

    constructor (crc: Checksum)
      ensures Valid() && dest == [] && frags == [] && this.crc == crc
    {
      this.crc := crc;
      dest, blockOffset, frags := [], 0, [];
    }

    /** Continues a log of which only the length is looked at. */
    constructor Reopen(crc: Checksum, dest: Bytes, ghost frags: seq<Frag>)
      requires Placed(frags) && AllEncodable(frags) && dest == LogBytes(crc, frags)
      ensures Valid() && this.dest == dest && this.frags == frags && this.crc == crc
    {
      this.crc := crc;
      hide LogBytes, Placed, InBlock;
      this.dest, this.frags := dest, frags;
      blockOffset := |dest| % BLOCK_SIZE;
      InBlockReopened(|dest|);
    }

    method EmitPhysicalRecord(t: nat, data: Bytes, ghost pad: nat)
      requires Placed(frags) && AllEncodable(frags) && dest == LogBytes(crc, frags) + Zeros(pad)
      requires InBlock(blockOffset, |dest|)
      requires blockOffset + HEADER_SIZE + |data| <= BLOCK_SIZE
      requires PlacedAt(|LogBytes(crc, frags)|, Frag(pad, t, data))
      modifies this
      ensures Valid() && frags == old(frags) + [Frag(pad, t, data)] && |dest| == old(|dest|) + HEADER_SIZE + |data|
    {
      hide LogBytes, Placed, PlacedAt, InBlock, Fixed, Mask;
      InBlockAdvances(blockOffset, |dest|, HEADER_SIZE + |data|);
      PlacedFits(|LogBytes(crc, frags)|, Frag(pad, t, data));
      var n := |data|;
      var sum := Mask(crc([t] + data));
      dest := dest + (Fixed32(sum) + [n % 256, n / 256, t]);
      dest := dest + data;
      blockOffset := blockOffset + HEADER_SIZE + n;
      AppendFrag(crc, frags, Frag(pad, t, data));
      frags := frags + [Frag(pad, t, data)];
    }

    /** A block whose rest cannot hold a header is filled with zeros. */
    method FinishBlock() returns (ghost pad: nat)
      requires Valid()
      modifies this`dest, this`blockOffset
      ensures pad == PadAt(|old(dest)|) && dest == LogBytes(crc, frags) + Zeros(pad)
      ensures |LogBytes(crc, frags)| == |old(dest)|
      ensures InBlock(blockOffset, |dest|) && BLOCK_SIZE - blockOffset - HEADER_SIZE == Room(|old(dest)|)
    {
      hide LogBytes, Placed, InBlock, PadAt, Room, AllEncodable;
      InBlockBound(blockOffset, |dest|);
      ghost var offset := |dest|;
      pad := PadAt(offset);
      var leftover := BLOCK_SIZE - blockOffset;
      if leftover < HEADER_SIZE {
        if leftover > 0 {
          dest := dest + Zeros(leftover);
        }
        blockOffset := 0;
      }
      PadFills(offset, leftover);
    }

    method AddRecord(record: Bytes)
      requires Valid()
      modifies this
      ensures Valid() && frags == old(frags) + Cut(|old(dest)|, record, true)
    {
      hide LogBytes, Placed, PlacedAt, InBlock, Cut, PadAt, Room, AllEncodable, Offset;
      var rest := record;
      var begin := true;
      ghost var start := |dest|;
      ghost var cut := [];
      while true
        invariant Valid() && frags == old(frags) + cut
        invariant Cut(start, record, true) == cut + Cut(|dest|, rest, begin)
        decreases |rest|, if Room(|dest|) == 0 then 1 else 0
      {
        ghost var offset := |dest|;
        CutStep(offset, rest, begin);
        ghost var pad := FinishBlock();
        var avail := BLOCK_SIZE - blockOffset - HEADER_SIZE;
        var n := if |rest| < avail then |rest| else avail;
        var end := |rest| == n;
        var t := if begin && end then FULL else if begin then FIRST else if end then LAST else MIDDLE;
        EmitPhysicalRecord(t, rest[..n], pad);
        ghost var f := Frag(pad, t, rest[..n]);
        MoreCut(Cut(start, record, true), cut, Cut(offset, rest, begin), f, Cut(|dest|, rest[n..], false), end);
        FragsJoin(old(frags), cut, f);
        cut := cut + [f];
        rest := rest[n..];
        begin := false;
        if |rest| == 0 { break; }
      }
    }
  }

  lemma PlacedFits(offset: nat, f: Frag)
    requires PlacedAt(offset, f)
    ensures Encodable(f)
  {
  }

  lemma MoreCut(whole: seq<Frag>, cut: seq<Frag>, left: seq<Frag>, f: Frag, next: seq<Frag>, end: bool)
    requires whole == cut + left && left == [f] + if end then [] else next
    ensures whole == cut + [f] + if end then [] else next
  {
  }

  lemma FragsJoin(before: seq<Frag>, cut: seq<Frag>, f: Frag)
    ensures before + cut + [f] == before + (cut + [f])
  {
  }

  /** One step of cutting a record. */
  lemma CutStep(offset: nat, data: Bytes, begin: bool)
    ensures var n := if |data| < Room(offset) then |data| else Room(offset);
            var f := Frag(PadAt(offset), Kind(begin, n == |data|), data[..n]);
            && PlacedAt(offset, f)
            && Cut(offset, data, begin) == [f] + (if n == |data| then [] else Cut(offset + f.Size(), data[n..], false))
            && (n == 0 < |data| ==> Room(offset) == 0 < Room(offset + f.Size()))
  {
  }

  lemma AppendFrag(crc: Checksum, frags: seq<Frag>, f: Frag)
    requires Placed(frags) && AllEncodable(frags) && PlacedAt(|LogBytes(crc, frags)|, f)
    ensures Placed(frags + [f]) && AllEncodable(frags + [f])
    ensures LogBytes(crc, frags + [f]) == LogBytes(crc, frags) + FragBytes(crc, f)
  {
    hide PlacedAt, FragBytes, Offset;
    PlacedFits(|LogBytes(crc, frags)|, f);
    LogBytesLength(crc, frags);
    AppendPlaced(frags, f);
    assert (frags + [f])[..|frags|] == frags;
  }

  lemma AppendPlaced(frags: seq<Frag>, f: Frag)
    requires Placed(frags) && PlacedAt(Offset(frags, |frags|), f)
    ensures Placed(frags + [f])
  {
    hide PlacedAt, Offset;
    var all := frags + [f];
    assert all[..|frags|] == frags;
    forall k | 0 <= k < |all| ensures PlacedAt(Offset(all, k), all[k]) {
      OffsetPrefix(all, |frags|, k);
    }
  }

  /** What filling the trailer does to the offset in the block. */
  lemma PadFills(offset: nat, leftover: nat)
    requires leftover <= BLOCK_SIZE && InBlock(BLOCK_SIZE - leftover, offset)
    ensures Room(offset) == if leftover < HEADER_SIZE then BLOCK_SIZE - HEADER_SIZE else leftover - HEADER_SIZE
    ensures PadAt(offset) == if 0 < leftover < HEADER_SIZE then leftover else 0
    ensures InBlock(if leftover < HEADER_SIZE then 0 else BLOCK_SIZE - leftover, offset + PadAt(offset))
  {
  }
}
