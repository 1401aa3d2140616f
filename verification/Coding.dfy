/** Fixed-width integers, varints and length-prefixed strings (util/coding.cc). */
module Coding {
  import opened Wrappers
  import opened Keys

  const TWO_32: nat := 0x1_0000_0000
  const TWO_64: nat := 0x1_0000_0000_0000_0000

  // ---------- fixed width, least significant byte first ----------

  function Fixed(v: nat, width: nat): (r: Bytes)
    ensures |r| == width
  {
    if width == 0 then [] else [v % 256] + Fixed(v / 256, width - 1)
  }

  function DecodeFixed(b: Bytes): nat {
    if b == [] then 0 else b[0] + 256 * DecodeFixed(b[1..])
  }

  function Pow256(n: nat): (r: nat)
    ensures r > 0
  {
    if n == 0 then 1 else 256 * Pow256(n - 1)
  }

  lemma {:induction false} FixedRoundTrip(v: nat, width: nat)
    requires v < Pow256(width)
    ensures DecodeFixed(Fixed(v, width)) == v
  {
    if width > 0 {
      assert v / 256 < Pow256(width - 1);
      FixedRoundTrip(v / 256, width - 1);
      assert Fixed(v, width)[1..] == Fixed(v / 256, width - 1);
    }
  }

  function Fixed32(v: nat): Bytes { Fixed(v, 4) }

  function Fixed64(v: nat): Bytes { Fixed(v, 8) }

  lemma Fixed32RoundTrip(v: nat)
    requires v < TWO_32
    ensures |Fixed32(v)| == 4 && DecodeFixed(Fixed32(v)) == v
  {
    assert Pow256(4) == TWO_32 by { assert Pow256(2) == 65536; }
    FixedRoundTrip(v, 4);
  }

  lemma Fixed64RoundTrip(v: nat)
    requires v < TWO_64
    ensures |Fixed64(v)| == 8 && DecodeFixed(Fixed64(v)) == v
  {
    assert Pow256(8) ==
      TWO_64 by { assert Pow256(2) == 65536; assert Pow256(4) == TWO_32; assert Pow256(6) == 65536 * TWO_32; }
    FixedRoundTrip(v, 8);
  }

  /** An array of 32-bit words. */
  function Words(vs: seq<nat>): (r: Bytes)
    ensures |r| == 4 * |vs|
  {
    if vs == [] then [] else Words(vs[..|vs| - 1]) + Fixed32(vs[|vs| - 1])
  }

  lemma {:induction false} WordAt(vs: seq<nat>, i: nat)
    requires i < |vs|
    ensures Words(vs)[4 * i..4 * i + 4] == Fixed32(vs[i])
  {
    hide Fixed;
    var n := |vs| - 1;
    if i < n {
      WordAt(vs[..n], i);
      assert Words(vs)[4 * i..4 * i + 4] == Words(vs[..n])[4 * i..4 * i + 4];
    }
  }

  lemma NoWords(vs: seq<nat>)
    ensures Words(vs[..0]) == []
  {
  }

  lemma WordsStep(vs: seq<nat>, i: nat)
    requires i < |vs|
    ensures Words(vs[..i + 1]) == Words(vs[..i]) + Fixed32(vs[i])
  {
    assert vs[..i + 1][..i] == vs[..i];
  }

  // ---------- varints ----------

  /** Seven bits a byte, low bits first; the high bit says more follow. */
  function Varint(v: nat): (r: Bytes)
    ensures |r| >= 1
  {
    if v < 128 then [v] else [v % 128 + 128] + Varint(v / 128)
  }

  /** EncodeVarint32 writes the five lengths out case by case. */
  method EncodeVarint32(v: nat) returns (r: Bytes)
    requires v < TWO_32
    ensures r == Varint(v)
  {
    if v < 0x80 {
      r := [v];
    } else if v < 0x4000 {
      r := [v % 128 + 128, v / 0x80];
    } else if v < 0x20_0000 {
      r := [v % 128 + 128, v / 0x80 % 128 + 128, v / 0x4000];
    } else if v < 0x1000_0000 {
      r := [v % 128 + 128, v / 0x80 % 128 + 128, v / 0x4000 % 128 + 128, v / 0x20_0000];
    } else {
      r := [v % 128 + 128, v / 0x80 % 128 + 128, v / 0x4000 % 128 + 128, v / 0x20_0000 % 128 + 128, v / 0x1000_0000];
    }
    VarintUnrolled(v);
  }

  lemma VarintUnrolled(v: nat)
    requires v < TWO_32
    ensures v >= 0x80 ==> Varint(v) == [v % 128 + 128] + Varint(v / 0x80)
    ensures v >= 0x4000 ==> Varint(v / 0x80) == [v / 0x80 % 128 + 128] + Varint(v / 0x4000)
    ensures v >= 0x20_0000 ==> Varint(v / 0x4000) == [v / 0x4000 % 128 + 128] + Varint(v / 0x20_0000)
    ensures v >= 0x1000_0000 ==> Varint(v / 0x20_0000) == [v / 0x20_0000 % 128 + 128] + Varint(v / 0x1000_0000)
    ensures v < 0x80 ==> Varint(v) == [v]
    ensures v < 0x4000 ==> Varint(v / 0x80) == [v / 0x80]
    ensures v < 0x20_0000 ==> Varint(v / 0x4000) == [v / 0x4000]
    ensures v < 0x1000_0000 ==> Varint(v / 0x20_0000) == [v / 0x20_0000]
    ensures Varint(v / 0x1000_0000) == [v / 0x1000_0000]
  {
    assert v / 0x80 / 128 == v / 0x4000;
    assert v / 0x4000 / 128 == v / 0x20_0000;
    assert v / 0x20_0000 / 128 == v / 0x1000_0000;
  }

  method EncodeVarint64(v: nat) returns (r: Bytes)
    ensures r == Varint(v)
  {
    r := [];
    var w := v;
    while w >= 128
      invariant r + Varint(w) == Varint(v)
      decreases w
    {
      ghost var before := r;
      r := r + [w % 128 + 128];
      assert before + Varint(w) == r + Varint(w / 128);
      w := w / 128;
    }
    r := r + [w];
  }

  method VarintLength(v: nat) returns (len: nat)
    ensures len == |Varint(v)|
  {
    len := 1;
    var w := v;
    while w >= 128
      invariant len + |Varint(w)| == |Varint(v)| + 1
      decreases w
    {
      w := w / 128;
      len := len + 1;
    }
  }

  /** What the decoding loop computes from here on: `scale` is 1 << shift. */
  function ReadVarint(input: Bytes, scale: nat, left: nat, acc: nat, modulus: nat): Option<(nat, Bytes)>
    requires modulus > 0
    decreases left
  {
    if left == 0 || input == [] then None
    else if input[0] >= 128 then ReadVarint(input[1..], scale * 128, left - 1, acc + (input[0] - 128) * scale % modulus,
                                            modulus)
    else Some((acc + input[0] * scale % modulus, input[1..]))
  }

  function ReadVarint32(input: Bytes): Option<(nat, Bytes)> { ReadVarint(input, 1, 5, 0, TWO_32) }

  function ReadVarint64(input: Bytes): Option<(nat, Bytes)> { ReadVarint(input, 1, 10, 0, TWO_64) }

  /** GetVarint32 and GetVarint64, which differ in the number of bytes and the width. */
  method GetVarint(input: Bytes, bytes: nat, modulus: nat) returns (r: Option<(nat, Bytes)>)
    requires modulus > 0
    ensures r == ReadVarint(input, 1, bytes, 0, modulus)
  {
    hide ReadVarint;
    var p: Bytes, scale: nat, left: nat, result: nat := input, 1, bytes, 0;
    while left > 0 && p != []
      invariant ReadVarint(input, 1, bytes, 0, modulus) == ReadVarint(p, scale, left, result, modulus)
      decreases left
    {
      var byte := p[0];
      if byte >= 128 { ReadMore(p, scale, left, result, modulus); } else { ReadLast(p, scale, left, result, modulus); }
      p := p[1..];
      if byte >= 128 {
        result := result + (byte - 128) * scale % modulus;
      } else {
        result := result + byte * scale % modulus;
        return Some((result, p));
      }
      scale := scale * 128;
      left := left - 1;
    }
    ReadNone(p, scale, left, result, modulus);
    r := None;
  }

  function Pow128(n: nat): (r: nat)
    ensures r > 0
  {
    if n == 0 then 1 else 128 * Pow128(n - 1)
  }

  lemma ScaleSplit(v: nat, scale: nat)
    ensures v * scale == v % 128 * scale + v / 128 * (scale * 128)
  {
    assert v == v % 128 + v / 128 * 128;
    calc {
      v * scale;
      (v % 128 + v / 128 * 128) * scale;
      v % 128 * scale + v / 128 * 128 * scale;
      v % 128 * scale + v / 128 * (scale * 128);
    }
  }

  lemma {:induction false} ReadsBack(v: nat, rest: Bytes, scale: nat, left: nat, acc: nat, modulus: nat)
    requires modulus > 0 && left > 0 && v < Pow128(left) && v * scale < modulus
    ensures ReadVarint(Varint(v) + rest, scale, left, acc, modulus) == Some((acc + v * scale, rest))
    decreases left
  {
    hide ReadVarint;
    var input := Varint(v) + rest;
    if v < 128 {
      ReadLast(input, scale, left, acc, modulus);
      Small(v * scale, modulus);
      assert input[1..] == rest;
    } else {
      var low, high := v % 128 * scale, v / 128 * (scale * 128);
      ScaleSplit(v, scale);
      NonNegative(v % 128, scale);
      NonNegative(v / 128, scale * 128);
      assert input[0] - 128 == v % 128;
      assert input[1..] == Varint(v / 128) + rest;
      ReadMore(input, scale, left, acc, modulus);
      Small(low, modulus);
      assert left > 1 && v / 128 < Pow128(left - 1) by { assert Pow128(left) == 128 * Pow128(left - 1); }
      ReadsBack(v / 128, rest, scale * 128, left - 1, acc + low, modulus);
    }
  }

  lemma NonNegative(a: nat, b: nat)
    ensures 0 <= a * b
  {
  }

  lemma Small(x: nat, modulus: nat)
    requires x < modulus
    ensures x % modulus == x
  {
  }

  lemma ReadMore(input: Bytes, scale: nat, left: nat, acc: nat, modulus: nat)
    requires modulus > 0 && left > 0 && input != [] && input[0] >= 128
    ensures ReadVarint(input, scale, left, acc, modulus) ==
            ReadVarint(input[1..], scale * 128, left - 1, acc + (input[0] - 128) * scale % modulus, modulus)
  {
  }

  lemma ReadNone(input: Bytes, scale: nat, left: nat, acc: nat, modulus: nat)
    requires modulus > 0 && (left == 0 || input == [])
    ensures ReadVarint(input, scale, left, acc, modulus) == None
  {
  }

  lemma ReadLast(input: Bytes, scale: nat, left: nat, acc: nat, modulus: nat)
    requires modulus > 0 && left > 0 && input != [] && input[0] < 128
    ensures ReadVarint(input, scale, left, acc, modulus) == Some((acc + input[0] * scale % modulus, input[1..]))
  {
  }

  /** Reading a varint uses up input. */
  lemma {:induction false} ReadVarintShortens(input: Bytes, scale: nat, left: nat, acc: nat, modulus: nat)
    requires modulus > 0
    ensures ReadVarint(input, scale, left, acc, modulus).Some? ==>
              |ReadVarint(input, scale, left, acc, modulus).value.1| < |input|
    decreases left
  {
    if left > 0 && input != [] && input[0] >= 128 {
      ReadMore(input, scale, left, acc, modulus);
      ReadVarintShortens(input[1..], scale * 128, left - 1, acc + (input[0] - 128) * scale % modulus, modulus);
    }
  }

  lemma Varint32RoundTrip(v: nat, rest: Bytes)
    requires v < TWO_32
    ensures ReadVarint32(Varint(v) + rest) == Some((v, rest))
  {
    assert Pow128(5) > TWO_32 by { assert Pow128(2) == 0x4000; assert Pow128(3) == 0x20_0000; }
    ReadsBack(v, rest, 1, 5, 0, TWO_32);
  }

  lemma Varint64RoundTrip(v: nat, rest: Bytes)
    requires v < TWO_64
    ensures ReadVarint64(Varint(v) + rest) == Some((v, rest))
  {
    assert Pow128(10) > TWO_64 by {
      assert Pow128(2) == 0x4000;
      assert Pow128(4) == 0x1000_0000;
      assert Pow128(6) == 0x400_0000_0000;
      assert Pow128(8) == 0x100_0000_0000_0000;
    }
    ReadsBack(v, rest, 1, 10, 0, TWO_64);
  }

  // ---------- length-prefixed strings ----------

  function Prefixed(s: Bytes): Bytes { Varint(|s|) + s }

  function ReadPrefixed(input: Bytes): Option<(Bytes, Bytes)> {
    match ReadVarint32(input)
    case None => None
    case Some((len, rest)) => if len <= |rest| then Some((rest[..len], rest[len..])) else None
  }

  method GetLengthPrefixedSlice(input: Bytes) returns (r: Option<(Bytes, Bytes)>)
    ensures r == ReadPrefixed(input)
  {
    var len := GetVarint(input, 5, TWO_32);
    match len {
      case None => r := None;
      case Some((n, rest)) =>
        if |rest| >= n {
          r := Some((rest[..n], rest[n..]));
        } else {
          r := None;
        }
    }
  }

  lemma PrefixedRoundTrip(s: Bytes, rest: Bytes)
    requires |s| < TWO_32
    ensures ReadPrefixed(Prefixed(s) + rest) == Some((s, rest))
  {
    assert Prefixed(s) + rest == Varint(|s|) + (s + rest);
    Varint32RoundTrip(|s|, s + rest);
    assert (s + rest)[..|s|] == s && (s + rest)[|s|..] == rest;
  }
}
