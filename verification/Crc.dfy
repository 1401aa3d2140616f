/**
 CRC-32C by table lookup, one and four bytes at a time (util/crc32c.cc; section 12.1 of
 RFC 3720). The tables are defined by their recurrence; the source spells them out as
 literals, which are taken to agree with it.
 */
module Crc {

  const POLY: bv32 := 0x82f63b78

  // ---------- bit steps ----------

  function Xor(x: bv32, y: bv32): bv32 { x ^ y }

  /** One bit of the reflected division. */
  function BitStep(x: bv32): bv32 { if x & 1 == 0 then x >> 1 else (x >> 1) ^ POLY }

  function Bits(x: bv32, n: nat): bv32
    decreases n
  {
    if n == 0 then x else Bits(BitStep(x), n - 1)
  }

  lemma Parity(x: bv32, y: bv32)
    ensures x & 1 == 0 || x & 1 == 1
    ensures (x ^ y) & 1 == if x & 1 == y & 1 then 0 else 1
  {
  }

  lemma ShiftIsLinear(x: bv32, y: bv32)
    ensures (x ^ y) >> 1 == (x >> 1) ^ (y >> 1)
  {
  }

  lemma AddedTwice(a: bv32, b: bv32, p: bv32)
    ensures a ^ b == (a ^ p) ^ (b ^ p)
  {
  }

  lemma EvenSteps(x: bv32, y: bv32)
    requires x & 1 == 0 && y & 1 == 0
    ensures BitStep(x ^ y) == BitStep(x) ^ BitStep(y)
  {
    Parity(x, y);
    ShiftIsLinear(x, y);
  }

  lemma OddSteps(x: bv32, y: bv32)
    requires x & 1 == 1 && y & 1 == 1
    ensures BitStep(x ^ y) == BitStep(x) ^ BitStep(y)
  {
    Parity(x, y);
    ShiftIsLinear(x, y);
    AddedTwice(x >> 1, y >> 1, POLY);
  }

  lemma MixedSteps(x: bv32, y: bv32)
    requires x & 1 == 0 && y & 1 == 1
    ensures BitStep(x ^ y) == BitStep(x) ^ BitStep(y)
    ensures BitStep(y ^ x) == BitStep(y) ^ BitStep(x)
  {
    Parity(x, y);
    ShiftIsLinear(x, y);
  }

  /** The division is linear: this is what lets a word be looked up byte by byte. */
  lemma BitStepLinear(x: bv32, y: bv32)
    ensures BitStep(Xor(x, y)) == Xor(BitStep(x), BitStep(y))
  {
    hide BitStep;
    Parity(x, y);
    Parity(y, x);
    if x & 1 == 0 && y & 1 == 0 {
      EvenSteps(x, y);
    } else if x & 1 == 1 && y & 1 == 1 {
      OddSteps(x, y);
    } else if x & 1 == 0 {
      MixedSteps(x, y);
    } else {
      MixedSteps(y, x);
    }
  }

  lemma {:induction false} BitsLinear(x: bv32, y: bv32, n: nat)
    ensures Bits(Xor(x, y), n) == Xor(Bits(x, n), Bits(y, n))
    decreases n
  {
    hide BitStep, Xor;
    if n > 0 {
      BitStepLinear(x, y);
      BitsLinear(BitStep(x), BitStep(y), n - 1);
    }
  }

  lemma {:induction false} BitsSum(x: bv32, m: nat, n: nat)
    ensures Bits(x, m + n) == Bits(Bits(x, m), n)
    decreases m
  {
    hide BitStep;
    if m > 0 {
      BitsSum(BitStep(x), m - 1, n);
    }
  }

  lemma EightBits(x: bv32)
    ensures Bits(x, 8) == BitStep(BitStep(BitStep(BitStep(BitStep(BitStep(BitStep(BitStep(x))))))))
  {
    hide BitStep;
    var x4 := BitStep(BitStep(BitStep(BitStep(x))));
    assert Bits(x4, 4) == BitStep(BitStep(BitStep(BitStep(x4))));
  }

  // ---------- bytes of a word ----------

  /** A byte, widened for the arithmetic. */
  type byte = w: bv32 | w <= 0xff

  /** The word without its lowest byte, moved down. */
  function Rest(x: bv32): bv32 { x >> 8 }

  function Byte0(x: bv32): byte { x & 0xff }

  function Byte1(x: bv32): byte { (x >> 8) & 0xff }

  function Byte2(x: bv32): byte { (x >> 16) & 0xff }

  function Byte3(x: bv32): byte { x >> 24 }

  /** The byte put `place` bytes up. */
  function Raised(b: byte, place: nat): bv32
    requires place <= 3
  {
    if place == 0 then b else if place == 1 then b << 8 else if place == 2 then b << 16 else b << 24
  }

  function Load32(b0: byte, b1: byte, b2: byte, b3: byte): bv32 {
    b0 | (b1 << 8) | (b2 << 16) | (b3 << 24)
  }

  lemma LowAndRest(x: bv32)
    ensures exists high: bv32 :: x == Xor(Byte0(x), high) && Byte0(high) == 0 && Rest(high) == Rest(x)
  {
    var high := x & 0xffffff00;
    assert x == Xor(Byte0(x), high) && Byte0(high) == 0 && Rest(high) == Rest(x);
  }

  lemma AddByte(x: bv32, b: byte)
    ensures Byte0(Xor(x, b)) == Xor(Byte0(x), b) && Rest(Xor(x, b)) == Rest(x)
  {
  }

  lemma RaisedRest(b: byte)
    ensures Byte0(Raised(b, 1)) == 0 && Rest(Raised(b, 1)) == Raised(b, 0)
    ensures Byte0(Raised(b, 2)) == 0 && Rest(Raised(b, 2)) == Raised(b, 1)
    ensures Byte0(Raised(b, 3)) == 0 && Rest(Raised(b, 3)) == Raised(b, 2)
  {
  }

  lemma FourBytes(c: bv32)
    ensures c == Xor(Byte0(c), Xor(Raised(Byte1(c), 1), Xor(Raised(Byte2(c), 2), Raised(Byte3(c), 3))))
  {
  }

  lemma XorAssociates(a: bv32, b: bv32, c: bv32)
    ensures Xor(Xor(a, b), c) == Xor(a, Xor(b, c))
  {
  }

  lemma LoadedBytes(b0: byte, b1: byte, b2: byte, b3: byte)
    ensures var c := Load32(b0, b1, b2, b3); Byte0(c) == b0 && Byte1(c) == b1 && Byte2(c) == b2 && Byte3(c) == b3
  {
  }

  lemma LoadAdded(l: bv32, b0: byte, b1: byte, b2: byte, b3: byte)
    ensures Xor(l, Load32(b0, b1, b2, b3)) == Xor(Xor(Xor(Xor(l, b0), Raised(b1, 1)), Raised(b2, 2)), Raised(b3, 3))
  {
    hide Xor, Raised, Load32, Byte0, Byte1, Byte2, Byte3;
    var r1, r2, r3 := Raised(b1, 1), Raised(b2, 2), Raised(b3, 3);
    LoadedBytes(b0, b1, b2, b3);
    FourBytes(Load32(b0, b1, b2, b3));
    XorAssociates(l, b0, Xor(r1, Xor(r2, r3)));
    XorAssociates(Xor(l, b0), r1, Xor(r2, r3));
    XorAssociates(Xor(Xor(l, b0), r1), r2, r3);
  }

  /** Eight zero bits are just shifted out. */
  lemma ZeroByteShiftsOut(x: bv32)
    requires Byte0(x) == 0
    ensures BitStep(BitStep(BitStep(BitStep(BitStep(BitStep(BitStep(BitStep(x)))))))) == Rest(x)
  {
  }

  /** A zero byte below costs eight steps. */
  lemma Lowered(x: bv32, n: nat)
    requires Byte0(x) == 0
    ensures Bits(x, 8 + n) == Bits(Rest(x), n)
  {
    hide Bits, BitStep, Byte0, Rest;
    BitsSum(x, 8, n);
    EightBits(x);
    ZeroByteShiftsOut(x);
  }

  /** A byte needs eight steps more for each place it stands up. */
  lemma RaisedBits(b: byte, n: nat)
    ensures Bits(Raised(b, 1), 8 + n) == Bits(b, n)
    ensures Bits(Raised(b, 2), 16 + n) == Bits(b, n)
    ensures Bits(Raised(b, 3), 24 + n) == Bits(b, n)
  {
    hide Bits, Byte0, Rest;
    RaisedRest(b);
    Lowered(Raised(b, 1), n);
    Lowered(Raised(b, 2), 8 + n);
    Lowered(Raised(b, 3), 16 + n);
  }

  // ---------- tables ----------

  function Table0(c: byte): bv32 { Bits(c, 8) }

  /** Each further table is the one before, carried on over a zero byte. */
  function Carried(t: bv32): bv32 { Xor(Table0(Byte0(t)), Rest(t)) }

  function Table1(c: byte): bv32 { Carried(Table0(c)) }

  function Table2(c: byte): bv32 { Carried(Table1(c)) }

  function Table3(c: byte): bv32 { Carried(Table2(c)) }

  /** A table lookup and a shift are eight bit steps. */
  lemma CarriedIsBits(x: bv32)
    ensures Carried(x) == Bits(x, 8)
  {
    hide Bits, Xor, Byte0, Rest;
    LowAndRest(x);
    var high: bv32 :| x == Xor(Byte0(x), high) && Byte0(high) == 0 && Rest(high) == Rest(x);
    BitsLinear(Byte0(x), high, 8);
    Lowered(high, 0);
    NoBits(Rest(x));
  }

  lemma NoBits(x: bv32)
    ensures Bits(x, 0) == x
  {
  }

  lemma TablesAreBits(c: byte)
    ensures Table0(c) == Bits(c, 8) && Table1(c) == Bits(c, 16) && Table2(c) == Bits(c, 24) && Table3(c) == Bits(c, 32)
  {
    hide Bits, Carried;
    CarriedIsBits(Table0(c));
    BitsSum(c, 8, 8);
    CarriedIsBits(Table1(c));
    BitsSum(c, 16, 8);
    CarriedIsBits(Table2(c));
    BitsSum(c, 24, 8);
  }

  // ---------- one byte and four bytes ----------

  function Step1(l: bv32, b: byte): bv32 { Xor(Table0(Xor(Byte0(l), b)), Rest(l)) }

  function Step4(l: bv32, b0: byte, b1: byte, b2: byte, b3: byte): bv32 {
    var c := Xor(l, Load32(b0, b1, b2, b3));
    Xor(Xor(Xor(Table3(Byte0(c)), Table2(Byte1(c))), Table1(Byte2(c))), Table0(Byte3(c)))
  }

  lemma Step1IsBits(l: bv32, b: byte)
    ensures Step1(l, b) == Bits(Xor(l, b), 8)
  {
    hide Bits, Table0, Xor, Byte0, Rest;
    AddByte(l, b);
    CarriedIsBits(Xor(l, b));
  }

  /** The word step is 32 bit steps of the word added in. */
  lemma Step4IsBits(l: bv32, b0: byte, b1: byte, b2: byte, b3: byte)
    ensures Step4(l, b0, b1, b2, b3) == Bits(Xor(l, Load32(b0, b1, b2, b3)), 32)
  {
    hide Bits, Table0, Table1, Table2, Table3, Load32, Xor, Byte0, Byte1, Byte2, Byte3, Raised;
    var c := Xor(l, Load32(b0, b1, b2, b3));
    var c1, c2, c3 := Raised(Byte1(c), 1), Raised(Byte2(c), 2), Raised(Byte3(c), 3);
    FourBytes(c);
    BitsLinear(Byte0(c), Xor(c1, Xor(c2, c3)), 32);
    BitsLinear(c1, Xor(c2, c3), 32);
    BitsLinear(c2, c3, 32);
    RaisedBits(Byte1(c), 24);
    RaisedBits(Byte2(c), 16);
    RaisedBits(Byte3(c), 8);
    TablesAreBits(Byte0(c));
    TablesAreBits(Byte1(c));
    TablesAreBits(Byte2(c));
    TablesAreBits(Byte3(c));
    var t0, t1, t2, t3 := Table3(Byte0(c)), Table2(Byte1(c)), Table1(Byte2(c)), Table0(Byte3(c));
    XorAssociates(t0, t1, t2);
    XorAssociates(t0, Xor(t1, t2), t3);
    XorAssociates(t1, t2, t3);
  }

  /** Adding a byte after some steps is adding it that many places higher before them. */
  lemma AddLater(x: bv32, b: byte, place: nat)
    requires 1 <= place <= 3
    ensures Bits(Xor(Bits(x, 8 * place), b), 8) == Bits(Xor(x, Raised(b, place)), 8 * place + 8)
  {
    hide Bits, Xor, Raised;
    BitsLinear(Bits(x, 8 * place), b, 8);
    BitsSum(x, 8 * place, 8);
    BitsLinear(x, Raised(b, place), 8 * place + 8);
    RaisedBits(b, 8);
  }

  /** Four byte steps are one word step. */
  lemma FourSteps(l: bv32, b0: byte, b1: byte, b2: byte, b3: byte)
    ensures Step4(l, b0, b1, b2, b3) == Step1(Step1(Step1(Step1(l, b0), b1), b2), b3)
  {
    hide Bits, Step1, Step4, Xor, Raised, Load32;
    var x0 := Xor(l, b0);
    var x1 := Xor(x0, Raised(b1, 1));
    var x2 := Xor(x1, Raised(b2, 2));
    Step1IsBits(l, b0);
    Step1IsBits(Bits(x0, 8), b1);
    Step1IsBits(Bits(x1, 16), b2);
    Step1IsBits(Bits(x2, 24), b3);
    AddLater(x0, b1, 1);
    AddLater(x1, b2, 2);
    AddLater(x2, b3, 3);
    LoadAdded(l, b0, b1, b2, b3);
    Step4IsBits(l, b0, b1, b2, b3);
  }

  // ---------- whole buffers ----------

  function Fold(l: bv32, buf: seq<byte>): bv32
    decreases |buf|
  {
    if buf == [] then l else Fold(Step1(l, buf[0]), buf[1..])
  }

  /** The checksum, one byte at a time. */
  function Bytewise(crc: bv32, buf: seq<byte>): bv32 { Flipped(Fold(Flipped(crc), buf)) }

  function Flipped(x: bv32): bv32 { x ^ 0xffffffff }

  lemma FlippedTwice(x: bv32)
    ensures Flipped(Flipped(x)) == x
  {
  }

  lemma {:induction false} FoldConcat(l: bv32, a: seq<byte>, b: seq<byte>)
    ensures Fold(l, a + b) == Fold(Fold(l, a), b)
    decreases |a|
  {
    hide Step1;
    if a == [] {
      assert a + b == b;
    } else {
      FoldConcat(Step1(l, a[0]), a[1..], b);
      assert (a + b)[1..] == a[1..] + b;
    }
  }

  /** Extending over two pieces is extending over their concatenation. */
  lemma ExtendSplits(crc: bv32, a: seq<byte>, b: seq<byte>)
    ensures Bytewise(Bytewise(crc, a), b) == Bytewise(crc, a + b)
  {
    hide Step1, Fold, Flipped;
    FlippedTwice(Fold(Flipped(crc), a));
    FoldConcat(Flipped(crc), a, b);
  }

  lemma FoldStep(l: bv32, buf: seq<byte>, p: nat)
    requires p < |buf|
    ensures Fold(l, buf[p..]) == Fold(Step1(l, buf[p]), buf[p + 1..])
  {
    hide Step1;
    assert buf[p..][1..] == buf[p + 1..];
  }

  lemma FoldFour(l: bv32, buf: seq<byte>, p: nat)
    requires p + 4 <= |buf|
    ensures Fold(l, buf[p..]) == Fold(Step4(l, buf[p], buf[p + 1], buf[p + 2], buf[p + 3]), buf[p + 4..])
  {
    hide Step1, Step4, Fold;
    var l1 := Step1(l, buf[p]);
    var l2 := Step1(l1, buf[p + 1]);
    var l3 := Step1(l2, buf[p + 2]);
    FoldStep(l, buf, p);
    FoldStep(l1, buf, p + 1);
    FoldStep(l2, buf, p + 2);
    FoldStep(l3, buf, p + 3);
    FourSteps(l, buf[p], buf[p + 1], buf[p + 2], buf[p + 3]);
  }

  /** `address` is where the buffer lies in memory: words are read only at aligned addresses. */
  method Extend(crc: bv32, buf: seq<byte>, address: nat) returns (r: bv32)
    ensures r == Bytewise(crc, buf)
  {
    hide Step1, Step4, Fold, Flipped;
    var p, e := 0, |buf|;
    var l := Flipped(crc);
    ghost var all := Fold(l, buf);
    assert buf[0..] == buf;
    var x := (address + 3) / 4 * 4 - address;
    if x <= e {
      while p != x
        invariant 0 <= p <= x && all == Fold(l, buf[p..])
      {
        FoldStep(l, buf, p);
        l := Step1(l, buf[p]);
        p := p + 1;
      }
    }
    while e - p >= 16
      invariant 0 <= p <= e && all == Fold(l, buf[p..])
    {
      FoldFour(l, buf, p);
      l := Step4(l, buf[p], buf[p + 1], buf[p + 2], buf[p + 3]);
      FoldFour(l, buf, p + 4);
      l := Step4(l, buf[p + 4], buf[p + 5], buf[p + 6], buf[p + 7]);
      FoldFour(l, buf, p + 8);
      l := Step4(l, buf[p + 8], buf[p + 9], buf[p + 10], buf[p + 11]);
      FoldFour(l, buf, p + 12);
      l := Step4(l, buf[p + 12], buf[p + 13], buf[p + 14], buf[p + 15]);
      p := p + 16;
    }
    while e - p >= 4
      invariant 0 <= p <= e && all == Fold(l, buf[p..])
    {
      FoldFour(l, buf, p);
      l := Step4(l, buf[p], buf[p + 1], buf[p + 2], buf[p + 3]);
      p := p + 4;
    }
    while p != e
      invariant 0 <= p <= e && all == Fold(l, buf[p..])
    {
      FoldStep(l, buf, p);
      l := Step1(l, buf[p]);
      p := p + 1;
    }
    FoldNone(l);
    assert buf[p..] == [];
    r := Flipped(l);
  }

  lemma FoldNone(l: bv32)
    ensures Fold(l, []) == l
  {
  }
}
