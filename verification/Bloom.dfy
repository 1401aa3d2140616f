/** The bloom filter (util/bloom.cc) over an arbitrary hash function. */
module Bloom {
  import opened Keys

  type Word = x: int | 0 <= x < 0x1_0000_0000

  type Hash = Bytes -> Word

  // ---------- bits of a byte ----------

  /** x & (1 << b) */
  predicate HasBit(x: nat, b: nat) { if b == 0 then x % 2 == 1 else HasBit(x / 2, b - 1) }

  /** x | (1 << b) */
  function SetBit(x: nat, b: nat): nat {
    if b == 0 then x / 2 * 2 + 1 else SetBit(x / 2, b - 1) * 2 + x % 2
  }

  function Pow2(b: nat): (r: nat)
    ensures r > 0
  {
    if b == 0 then 1 else 2 * Pow2(b - 1)
  }

  /** Setting a bit sets it and keeps every other as it was. */
  lemma {:induction false} SetBitSets(x: nat, b: nat, c: nat)
    ensures HasBit(SetBit(x, b), c) <==> c == b || HasBit(x, c)
  {
    if b > 0 {
      if c > 0 { SetBitSets(x / 2, b - 1, c - 1); }
      assert SetBit(x, b) / 2 == SetBit(x / 2, b - 1) && SetBit(x, b) % 2 == x % 2;
    }
  }

  lemma Halved(x: nat, p: nat)
    requires x < 2 * p
    ensures x / 2 < p
  {
  }

  lemma Doubled(x: nat, y: nat, p: nat)
    ensures x < 2 * p ==> x / 2 * 2 + 1 < 2 * p
    ensures y < p ==> y * 2 + x % 2 < 2 * p
  {
  }

  lemma {:induction false} SetBitStays(x: nat, b: nat, width: nat)
    requires b < width && x < Pow2(width)
    ensures SetBit(x, b) < Pow2(width)
  {
    var p := Pow2(width - 1);
    assert Pow2(width) == 2 * p;
    if b == 0 {
      Doubled(x, 1, p);
    } else {
      Halved(x, p);
      SetBitStays(x / 2, b - 1, width - 1);
      Doubled(x, SetBit(x / 2, b - 1), p);
    }
  }

  lemma ByteBits(x: Byte, b: nat, c: nat)
    requires b < 8
    ensures SetBit(x, b) < 256 && (HasBit(SetBit(x, b), c) <==> c == b || HasBit(x, c))
  {
    assert Pow2(8) == 256 by { assert Pow2(4) == 16; }
    SetBitSets(x, b, c);
    SetBitStays(x, b, 8);
  }

  /** Bit `p` of a bit array packed eight to the byte. */
  predicate Bit(bits: Bytes, p: nat) { p / 8 < |bits| && HasBit(bits[p / 8], p % 8) }

  // ---------- probes ----------

  /** Rotate right by 17 bits. */
  function Delta(h: Word): Word { h / 0x2_0000 + h % 0x2_0000 * 0x8000 }

  /** The hash after `j` steps of double hashing, in 32 bits. */
  function ProbeHash(h: Word, j: nat): Word {
    if j == 0 then h else (ProbeHash(h, j - 1) + Delta(h)) % 0x1_0000_0000
  }

  /** Probes 0 to k - 1 all hit set bits. */
  ghost predicate AllSet(bits: Bytes, h: Word, k: nat)
    requires |bits| > 0
  {
    forall j :: 0 <= j < k ==> Bit(bits, ProbeHash(h, j) % (|bits| * 8))
  }

  /** The filter is the bit array with the number of probes behind it. */
  ghost predicate Matches(hash: Hash, key: Bytes, filter: Bytes) {
    |filter| >= 2 && (filter[|filter| - 1] > 30 || AllSet(filter[..|filter| - 1], hash(key), filter[|filter| - 1]))
  }

  method KeyMayMatch(hash: Hash, key: Bytes, filter: Bytes) returns (r: bool)
    ensures r <==> Matches(hash, key, filter)
  {
    hide HasBit, Delta;
    var len := |filter|;
    if len < 2 { return false; }
    var bits := filter[..len - 1];
    var k := filter[len - 1];
    if k > 30 {
      // reserved for other encodings
      return true;
    }
    var h := hash(key);
    var delta := Delta(h);
    var j := 0;
    while j < k
      invariant 0 <= j <= k && h == ProbeHash(hash(key), j)
      invariant forall i :: 0 <= i < j ==> Bit(bits, ProbeHash(hash(key), i) % (|bits| * 8))
    {
      var bitpos := h % (|bits| * 8);
      if !(bitpos / 8 < |bits| && HasBit(bits[bitpos / 8], bitpos % 8)) {
        return false;
      }
      h := (h + delta) % 0x1_0000_0000;
      j := j + 1;
    }
    r := true;
  }

  /** bits_per_key * 0.69, rounded down, between 1 and 30. */
  function Probes(bitsPerKey: nat): (k: nat)
    ensures 1 <= k <= 30
  {
    var k := (bitsPerKey as real * 0.69).Floor;
    if k < 1 then 1 else if k > 30 then 30 else k
  }

  /** Bit `p` is hit by one of probes 0 to k - 1 into `size` bits. */
  ghost predicate Probed(h: Word, k: nat, size: nat, p: nat)
    requires size > 0
  {
    exists j :: 0 <= j < k && ProbeHash(h, j) % size == p
  }

  /** The set bits are those set before and those probed. */
  ghost predicate Added(before: Bytes, after: Bytes, h: Word, k: nat)
    requires |before| > 0
  {
    |after| == |before| && forall p: nat :: Bit(after, p) <==> Bit(before, p) || Probed(h, k, |before| * 8, p)
  }

  lemma SetGrows(bits: Bytes, p: nat)
    requires p / 8 < |bits|
    ensures SetBit(bits[p / 8], p % 8) < 256
    ensures var bits' := bits[p / 8 := SetBit(bits[p / 8], p % 8)];
            forall q: nat :: Bit(bits', q) <==> q == p || Bit(bits, q)
  {
    ByteBits(bits[p / 8], p % 8, 0);
    var bits' := bits[p / 8 := SetBit(bits[p / 8], p % 8)];
    forall q: nat ensures Bit(bits', q) <==> q == p || Bit(bits, q) {
      if q / 8 == p / 8 { ByteBits(bits[p / 8], p % 8, q % 8); }
    }
  }

  lemma ProbedStep(h: Word, k: nat, size: nat, p: nat)
    requires size > 0
    ensures Probed(h, k + 1, size, p) <==> Probed(h, k, size, p) || ProbeHash(h, k) % size == p
  {
  }

  /** Sets the key's bits and no others. */
  method AddKey(hash: Hash, key: Bytes, k: nat, array_: array<Byte>)
    requires array_.Length > 0
    modifies array_
    ensures Added(old(array_[..]), array_[..], hash(key), k)
  {
    hide HasBit, SetBit, Delta, Probed, Bit;
    var bits := array_.Length * 8;
    var h := hash(key);
    var delta := Delta(h);
    NoProbes(h, bits);
    var j := 0;
    while j < k
      invariant 0 <= j <= k && h == ProbeHash(hash(key), j)
      invariant Added(old(array_[..]), array_[..], hash(key), j)
    {
      var bitpos := h % bits;
      ghost var before := array_[..];
      SetGrows(before, bitpos);
      array_[bitpos / 8] := SetBit(array_[bitpos / 8], bitpos % 8);
      assert array_[..] == before[bitpos / 8 := SetBit(before[bitpos / 8], bitpos % 8)];
      forall p: nat ensures Probed(hash(key), j + 1, bits, p) <==> Probed(hash(key), j, bits, p) || bitpos == p {
        ProbedStep(hash(key), j, bits, p);
      }
      h := (h + delta) % 0x1_0000_0000;
      j := j + 1;
    }
  }

  lemma NoProbes(h: Word, size: nat)
    requires size > 0
    ensures forall p: nat :: !Probed(h, 0, size, p)
  {
  }

  /** Eight or more bytes: bits_per_key bits a key, rounded up. */
  function FilterBytes(n: nat, bitsPerKey: nat): (bytes: nat)
    ensures bytes >= 8 && bytes * 8 >= n * bitsPerKey
  {
    ((if n * bitsPerKey < 64 then 64 else n * bitsPerKey) + 7) / 8
  }

  /** The set bits are exactly the probes of the keys. */
  ghost predicate Holds(bits: Bytes, hash: Hash, keys: seq<Bytes>, k: nat)
    requires |bits| > 0
  {
    forall p: nat :: Bit(bits, p) <==> ProbedByOne(hash, keys, k, |bits| * 8, p)
  }

  ghost predicate ProbedByOne(hash: Hash, keys: seq<Bytes>, k: nat, size: nat, p: nat)
    requires size > 0
  {
    exists i :: 0 <= i < |keys| && Probed(hash(keys[i]), k, size, p)
  }

  /** A filter that matches each of its keys and has no bit set but theirs. */
  method CreateFilter(hash: Hash, bitsPerKey: nat, keys: seq<Bytes>) returns (filter: Bytes)
    ensures |filter| == FilterBytes(|keys|, bitsPerKey) + 1 && filter[|filter| - 1] == Probes(bitsPerKey)
    ensures Holds(filter[..|filter| - 1], hash, keys, Probes(bitsPerKey))
    ensures forall i :: 0 <= i < |keys| ==> Matches(hash, keys[i], filter)
  {
    hide HasBit, Bit, Probed;
    var bits := |keys| * bitsPerKey;
    if bits < 64 {
      bits := 64;
    }
    var bytes := (bits + 7) / 8;
    var k := Probes(bitsPerKey);
    var array_ := new Byte[bytes](_ => 0);
    NoBits(array_[..]);
    var i := 0;
    while i < |keys|
      invariant 0 <= i <= |keys|
      invariant Holds(array_[..], hash, keys[..i], k)
    {
      ghost var before := array_[..];
      AddKey(hash, keys[i], k, array_);
      OneKeyMore(before, array_[..], hash, keys, i, k);
      i := i + 1;
    }
    assert keys[..i] == keys;
    filter := array_[..] + [k];
    assert filter[..|filter| - 1] == array_[..];
    forall q | 0 <= q < |keys| ensures Matches(hash, keys[q], filter) {
      HeldMatches(array_[..], hash, keys, k, q);
    }
  }

  lemma NoBits(bits: Bytes)
    requires forall i :: 0 <= i < |bits| ==> bits[i] == 0
    ensures forall p: nat :: !Bit(bits, p)
  {
    forall p: nat ensures !Bit(bits, p) {
      if p / 8 < |bits| { ZeroHasNone(p % 8); }
    }
  }

  lemma {:induction false} ZeroHasNone(b: nat)
    ensures !HasBit(0, b)
  {
    if b > 0 { ZeroHasNone(b - 1); }
  }

  lemma OneKeyMore(before: Bytes, after: Bytes, hash: Hash, keys: seq<Bytes>, i: nat, k: nat)
    requires i < |keys| && |before| > 0 && Holds(before, hash, keys[..i], k) && Added(before, after, hash(keys[i]), k)
    ensures Holds(after, hash, keys[..i + 1], k)
  {
    hide Bit, Probed;
    var some, more := keys[..i], keys[..i + 1];
    forall p: nat ensures Bit(after, p) <==> ProbedByOne(hash, more, k, |after| * 8, p) {
      if Probed(hash(keys[i]), k, |after| * 8, p) {
        assert more[i] == keys[i];
      }
      if q :| 0 <= q < i && Probed(hash(some[q]), k, |after| * 8, p) {
        assert more[q] == some[q];
      }
      if q :| 0 <= q < i + 1 && Probed(hash(more[q]), k, |after| * 8, p) {
        assert q < i ==> some[q] == more[q];
      }
    }
  }

  lemma HeldMatches(bits: Bytes, hash: Hash, keys: seq<Bytes>, k: nat, q: nat)
    requires |bits| > 0 && q < |keys| && Holds(bits, hash, keys, k)
    ensures AllSet(bits, hash(keys[q]), k)
  {
    hide Bit;
    forall j | 0 <= j < k ensures Bit(bits, ProbeHash(hash(keys[q]), j) % (|bits| * 8)) {
      assert Probed(hash(keys[q]), k, |bits| * 8, ProbeHash(hash(keys[q]), j) % (|bits| * 8));
    }
  }
}
