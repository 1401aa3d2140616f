/**
 The write-ahead log as bytes (db/log_format.h): records cut into fragments, each with
 a seven-byte header, none crossing a 32 KiB block. The checksum function is arbitrary.
 */
module LogFormat {
  import opened Keys
  import opened Coding

  const BLOCK_SIZE: nat := 32768
  const HEADER_SIZE: nat := 7

  const ZERO_TYPE: nat := 0
  const FULL: nat := 1
  const FIRST: nat := 2
  const MIDDLE: nat := 3
  const LAST: nat := 4

  type Word = x: int | 0 <= x < 0x1_0000_0000

  type Checksum = Bytes -> Word

  const MASK_DELTA: nat := 0xa282ead8

  /** Rotate right by 15 bits and add a constant, in 32 bits. */
  function Mask(crc: Word): Word {
    (crc / 0x8000 + crc % 0x8000 * 0x2_0000 + MASK_DELTA) % TWO_32
  }

  function Unmask(masked: Word): Word {
    var rot := (masked - MASK_DELTA) % TWO_32;
    rot / 0x2_0000 + rot % 0x2_0000 * 0x8000
  }

  lemma UnmaskMask(crc: Word)
    ensures Unmask(Mask(crc)) == crc
  {
    var low, high := crc % 0x8000, crc / 0x8000;
    assert high < 0x2_0000;
    var rot := high + low * 0x2_0000;
    assert rot < TWO_32;
    assert (Mask(crc) - MASK_DELTA) % TWO_32 == rot;
    assert rot / 0x2_0000 == low && rot % 0x2_0000 == high;
  }

  /** Bytes of padding before a fragment: a block never ends with a shorter header. */
  datatype Frag = Frag(pad: nat, kind: nat, data: Bytes) {
    function Size(): nat { pad + HEADER_SIZE + |data| }
  }

  function Zeros(n: nat): (r: Bytes)
    ensures |r| == n
  {
    seq(n, _ => 0)
  }

  predicate Encodable(f: Frag) {
    f.kind < 256 && |f.data| < 65536
  }

  function Header(crc: Checksum, kind: nat, data: Bytes): (r: Bytes)
    requires kind < 256 && |data| < 65536
    ensures |r| == HEADER_SIZE
  {
    Fixed32(Mask(crc([kind] + data))) + [|data| % 256, |data| / 256, kind]
  }

  function FragBytes(crc: Checksum, f: Frag): (r: Bytes)
    requires Encodable(f)
    ensures |r| == f.Size()
  {
    Zeros(f.pad) + Header(crc, f.kind, f.data) + f.data
  }

  predicate AllEncodable(frags: seq<Frag>) {
    forall k :: 0 <= k < |frags| ==> Encodable(frags[k])
  }

  function LogBytes(crc: Checksum, frags: seq<Frag>): (r: Bytes)
    requires AllEncodable(frags)
  {
    if frags == [] then [] else LogBytes(crc, frags[..|frags| - 1]) + FragBytes(crc, frags[|frags| - 1])
  }

  /** Where fragment `k` begins, its padding included. */
  function Offset(frags: seq<Frag>, k: nat): nat
    requires k <= |frags|
  {
    if k == 0 then 0 else Offset(frags, k - 1) + frags[k - 1].Size()
  }

  lemma {:induction false} LogBytesAt(crc: Checksum, frags: seq<Frag>, k: nat)
    requires AllEncodable(frags) && k < |frags|
    ensures Offset(frags, k + 1) <= |LogBytes(crc, frags)| == Offset(frags, |frags|)
    ensures LogBytes(crc, frags)[Offset(frags, k)..Offset(frags, k + 1)] == FragBytes(crc, frags[k])
  {
    hide FragBytes;
    var n := |frags| - 1;
    LogBytesLength(crc, frags);
    LogBytesLength(crc, frags[..n]);
    OffsetPrefix(frags, n, n);
    if k < n {
      LogBytesAt(crc, frags[..n], k);
      OffsetPrefix(frags, n, k);
      OffsetPrefix(frags, n, k + 1);
      assert LogBytes(crc, frags)[Offset(frags, k)..Offset(frags, k + 1)] ==
        LogBytes(crc, frags[..n])[Offset(frags, k)..Offset(frags, k + 1)];
    }
  }

  lemma {:induction false} LogBytesLength(crc: Checksum, frags: seq<Frag>)
    requires AllEncodable(frags)
    ensures |LogBytes(crc, frags)| == Offset(frags, |frags|)
  {
    if frags != [] {
      LogBytesLength(crc, frags[..|frags| - 1]);
      OffsetPrefix(frags, |frags| - 1, |frags| - 1);
    }
  }

  lemma {:induction false} OffsetPrefix(frags: seq<Frag>, n: nat, k: nat)
    requires k <= n <= |frags|
    ensures Offset(frags[..n], k) == Offset(frags, k)
  {
    if k > 0 {
      OffsetPrefix(frags, n, k - 1);
    }
  }

  lemma {:induction false} OffsetMonotone(frags: seq<Frag>, j: nat, k: nat)
    requires j <= k <= |frags|
    ensures Offset(frags, j) + HEADER_SIZE * (k - j) <= Offset(frags, k)
    decreases k - j
  {
    if j < k {
      OffsetMonotone(frags, j, k - 1);
    }
  }

  /** Zero bytes needed at `offset` so that a header fits in the block. */
  function PadAt(offset: nat): nat {
    var leftover := BLOCK_SIZE - offset % BLOCK_SIZE;
    if leftover < HEADER_SIZE then leftover else 0
  }

  /** Payload bytes that fit after padding and header. */
  function Room(offset: nat): nat {
    BLOCK_SIZE - (offset + PadAt(offset)) % BLOCK_SIZE - HEADER_SIZE
  }

  predicate PlacedAt(offset: nat, f: Frag) {
    f.pad == PadAt(offset) && |f.data| <= Room(offset) && FULL <= f.kind <= LAST
  }

  ghost predicate Placed(frags: seq<Frag>) {
    forall k :: 0 <= k < |frags| ==> PlacedAt(Offset(frags, k), frags[k])
  }

  lemma PlacedEncodable(frags: seq<Frag>)
    requires Placed(frags)
    ensures AllEncodable(frags)
  {
    forall k | 0 <= k < |frags| ensures Encodable(frags[k]) {
      assert PlacedAt(Offset(frags, k), frags[k]);
    }
  }

  // ---------- cutting records ----------

  function Kind(begin: bool, end: bool): nat {
    if begin && end then FULL else if begin then FIRST else if end then LAST else MIDDLE
  }

  /** The fragments of a record written at `offset`. */
  function Cut(offset: nat, data: Bytes, begin: bool): (r: seq<Frag>)
    ensures r != []
    decreases |data|, if Room(offset) == 0 then 1 else 0
  {
    var n := if |data| < Room(offset) then |data| else Room(offset);
    var end := n == |data|;
    var f := Frag(PadAt(offset), Kind(begin, end), data[..n]);
    if end then [f] else [f] + Cut(offset + f.Size(), data[n..], false)
  }

  function Sizes(frags: seq<Frag>): nat { Offset(frags, |frags|) }

  /** All fragments of a log holding `records`. */
  function Fragments(records: seq<Bytes>): seq<Frag> {
    if records == [] then [] else
      var before := Fragments(records[..|records| - 1]);
      before + Cut(Sizes(before), records[|records| - 1], true)
  }

  /** Index of the first fragment of record `j`. */
  function Bound(records: seq<Bytes>, j: nat): nat
    requires j <= |records|
  {
    |Fragments(records[..j])|
  }
}
