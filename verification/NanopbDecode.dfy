/** nanopb's decoder (pb_decode.c, pb_common.c): input streams, field lookup and the decoding loop. */
module NanopbDecode {
  import opened Wrappers
  import opened Keys
  import opened Coding
  import opened NanopbTypes
  import opened NanopbRecords

  const MAX_REQUIRED_FIELDS: nat := 64

  function Width(size: nat): nat {
    if size == 1 then 0x100 else if size == 2 then 0x1_0000 else if size == 4 then TWO_32 else TWO_64
  }

  /** Storing a number in a signed field of this size keeps its low bits. */
  function Wrap(n: int, size: nat): int {
    var low := n % Width(size);
    if low < Width(size) / 2 then low else low - Width(size)
  }

  function WrapUnsigned(n: int, size: nat): int { n % Width(size) }

  /** Undoes zigzag: the complement of the halved value when it is odd. */
  function UnZigZag(v: nat): int {
    if v % 2 == 1 then Wrap(TWO_64 - 1 - v / 2, 8) else Wrap(v / 2, 8)
  }

  function TextOf(b: Bytes): (r: Bytes)
    ensures 0 !in r && |r| <= |b| && (0 !in b ==> r == b)
  {
    if b == [] || b[0] == 0 then [] else [b[0]] + TextOf(b[1..])
  }

  lemma WrapFits(n: int, size: nat)
    ensures SignedFits(Wrap(n, size), size) && UnsignedFits(WrapUnsigned(n, size), size)
    ensures SignedFits(n, size) ==> Wrap(n, size) == n
    ensures UnsignedFits(n, size) ==> WrapUnsigned(n, size) == n
  {
  }

  /** Sign extension to 64 bits is undone, also by way of 32 bits for the smaller fields. */
  lemma SignExtensionBack(n: int, size: nat)
    requires SignedFits(n, size)
    ensures Wrap(ToUnsigned(n), 8) == n
    ensures size == 1 || size == 2 || size == 4 ==> Wrap(ToUnsigned(n), 4) == n
  {
    if n < 0 {
      assert ToUnsigned(n) == n + TWO_64;
      if size == 1 || size == 2 || size == 4 { LowWord(n); }
    }
  }

  lemma LowWord(n: int)
    requires -0x8000_0000 <= n < 0
    ensures (n + TWO_64) % TWO_32 == n + TWO_32
  {
    assert n + TWO_64 == n + TWO_32 + TWO_32 * (TWO_32 - 1);
  }

  lemma UnZigZagBack(n: int)
    requires SignedFits(n, 8)
    ensures ZigZag(n) >= 0 && UnZigZag(ZigZag(n)) == n
  {
  }

  /** `data` is the encoding of the message. */
  ghost predicate Encodes(fields: seq<Field>, m: seq<Slot>, data: Bytes) {
    |m| == |fields| && MessageBytes(fields, m, |fields|) == Some(data)
  }

  lemma SubmessageWire(f: Field, fields: seq<Field>, v: Value)
    requires f.ltype == SubmessageType(fields) && Good(f, v)
    ensures v.Msg? && GoodMessage(fields, v.slots) && |v.slots| == |fields|
    ensures MessageBytes(fields, v.slots, |fields|).Some?
    ensures var b := MessageBytes(fields, v.slots, |fields|).value;
            ScalarBytes(f, v) == Some(Prefixed(b)) && |b| < TWO_32
  {
  }

  /** What a bytes or string field looks like on the wire, and when the decoder takes it. */
  lemma BlobOnWire(f: Field, v: Value, rest: Bytes)
    requires f.ltype.BytesType? || f.ltype.StringType? || f.ltype.FixedBytesType?
    requires Good(f, v)
    ensures ScalarBytes(f, v).Some? && v.Blob? && |v.b| < TWO_32
    ensures ScalarBytes(f, v).value + rest == Varint(|v.b|) + (v.b + rest)
    ensures f.ltype.BytesType? ==> |v.b| + SIZE_BYTES <= f.dataSize
    ensures f.ltype.StringType? ==> TextOf(v.b) == v.b
    ensures f.ltype.FixedBytesType? ==> |v.b| == f.dataSize
    ensures Terminated(f, v) <==> f.ltype.StringType? ==> |v.b| < f.dataSize
  {
    hide Varint;
  }

  lemma BlobTyped(f: Field)
    ensures f.ltype.BytesType? ==> forall b :: Typed(f, Blob(b))
    ensures f.ltype.StringType? ==> forall b: Bytes :: |b| < f.dataSize ==> Typed(f, Blob(TextOf(b)))
    ensures f.ltype.FixedBytesType? ==> forall b: Bytes :: |b| == f.dataSize ==> Typed(f, Blob(b))
  {
  }

  lemma GoodEncodes(f: Field, v: Value)
    requires Good(f, v)
    ensures ScalarBytes(f, v).Some? && Typed(f, v)
  {
  }

  class IStream {
    /** What is left to read. */
    var data: Bytes

    constructor (data: Bytes)
      ensures this.data == data
    {
      this.data := data;
    }

    method Read(count: nat) returns (ok: bool, b: Bytes)
      modifies this
      ensures if count <= |old(data)| then ok && b == old(data)[..count]
                                           && data == old(data)[count..] else !ok && data == old(data)
    {
      if |data| < count { return false, []; }
      b := data[..count];
      data := data[count..];
      ok := true;
    }

    method ReadByte() returns (ok: bool, b: Byte)
      modifies this
      ensures if old(data) != [] then ok && b == old(data)[0] && data == old(data)[1..] else !ok && data == old(data)
    {
      if |data| == 0 { return false, 0; }
      b := data[0];
      data := data[1..];
      ok := true;
    }

    method DecodeVarint() returns (r: Option<nat>)
      modifies this
      ensures match ReadVarint64(old(data))
              case Some((v, rest)) => r == Some(v) && data == rest
              case None => r == None
      ensures |data| <= |old(data)| && (r.Some? ==> |data| < |old(data)|)
    {
      hide ReadVarint;
      var bitpos := 0;
      var result: nat, scale: nat := 0, 1;
      ghost var left: nat := 10;
      while true
        invariant bitpos + 7 * left == 70 && |data| <= |old(data)|
        invariant ReadVarint64(old(data)) == ReadVarint(data, scale, left, result, TWO_64)
        decreases left
      {
        if bitpos >= 64 {
          ReadNone(data, scale, left, result, TWO_64);
          return None;
        }
        ghost var input := data;
        var ok, byte := ReadByte();
        if !ok {
          ReadNone(input, scale, left, result, TWO_64);
          return None;
        }
        if byte >= 128 {
          ReadMore(input, scale, left, result, TWO_64);
        } else {
          ReadLast(input, scale, left, result, TWO_64);
        }
        result := result + byte % 128 * scale % TWO_64;
        scale := scale * 128;
        bitpos := bitpos + 7;
        left := left - 1;
        if byte < 128 {
          return Some(result);
        }
      }
    }

    /** The 32-bit fast path, which also lets sign-extended and padded encodings through. */
    method DecodeVarint32(ghost v: nat, ghost rest: Bytes) returns (ok: bool, dest: nat, eof: bool)
      modifies this
      ensures |data| <= |old(data)| && (ok ==> |data| < |old(data)|)
      ensures old(data) == [] ==> !ok && eof
      ensures v < TWO_32 && old(data) == Varint(v) + rest ==> ok && dest == v && data == rest
    {
      hide Varint, Partial;
      ghost var expected := v < TWO_32 && data == Varint(v) + rest;
      VarintParts(v, rest);
      eof := false;
      dest := 0;
      var byte: Byte;
      ok, byte := ReadByte();
      if !ok {
        eof := true;
        return;
      }
      var result: nat;
      if byte < 128 {
        result := byte;
      } else {
        var bitpos: nat := 7;
        var scale: nat := 128;
        result := byte % 128;
        ghost var w: nat := v / 128;
        if expected { PartialStart(data, rest, v, byte); }
        while true
          invariant |data| < |old(data)| && bitpos >= 7
          invariant expected ==> Partial(data, rest, v, w, result, scale, bitpos)
          decreases |data|
        {
          if expected { PartialStep(data, rest, v, w, result, scale, bitpos); }
          ok, byte := ReadByte();
          if !ok { return; }
          if bitpos >= 32 {
            var signExtension: nat := if bitpos < 63 then 0xFF else 0x01;
            if byte % 128 != 0 && (result < 0x8000_0000 || byte != signExtension) {
              return false, 0, false;
            }
          } else {
            result := result + byte % 128 * scale % TWO_32;
          }
          bitpos := bitpos + 7;
          scale := scale * 128;
          if byte < 128 { break; }
          w := w / 128;
        }
        if bitpos == 35 && byte / 16 % 8 != 0 {
          return false, 0, false;
        }
      }
      dest := result;
    }
  
    method SkipVarint() returns (ok: bool)
      modifies this
      ensures |data| <= |old(data)| && (ok ==> |data| < |old(data)|)
    {
      while true
        invariant |data| <= |old(data)|
        decreases |data|
      {
        var b: Byte;
        ok, b := ReadByte();
        if !ok || b < 128 { return; }
      }
    }

    method SkipString() returns (ok: bool)
      modifies this
      ensures |data| <= |old(data)|
    {
      var length: nat;
      var eof: bool;
      ok, length, eof := DecodeVarint32(0, []);
      if !ok { return; }
      var b: Bytes;
      ok, b := Read(length);
    }

    method SkipField(wireType: nat) returns (ok: bool)
      modifies this
      ensures |data| <= |old(data)|
    {
      var b: Bytes;
      if wireType == WT_VARINT {
        ok := SkipVarint();
      } else if wireType == WT_64BIT {
        ok, b := Read(8);
      } else if wireType == WT_STRING {
        ok := SkipString();
      } else if wireType == WT_32BIT {
        ok, b := Read(4);
      } else {
        ok := false;
      }
    }

    method DecodeTag(ghost wt: nat, ghost number: nat, ghost rest: Bytes)
      returns (ok: bool, wireType: nat, tag: nat, eof: bool)
      modifies this
      ensures |data| <= |old(data)| && (ok ==> |data| < |old(data)|)
      ensures wt < 8 && 1 <= number < 0x2000_0000 && old(data) == TagBytes(wt, number) + rest ==>
                ok && wireType == wt && tag == number && data == rest
    {
      wireType, tag := 0, 0;
      var temp: nat;
      ok, temp, eof := DecodeVarint32(number * 8 + wt, rest);
      if !ok { return; }
      if temp == 0 {
        return false, 0, 0, true;
      }
      tag := temp / 8;
      wireType := temp % 8;
    }

    /** The next length-prefixed stretch as a stream of its own. */
    method MakeSubstream(ghost b: Bytes, ghost rest: Bytes) returns (ok: bool, sub: IStream)
      modifies this
      ensures fresh(sub) && |data| <= |old(data)| && (ok ==> |data| + |sub.data| < |old(data)|)
      ensures |b| < TWO_32 && old(data) == Prefixed(b) + rest ==> ok && sub.data == b && data == rest
    {
      ghost var expected := |b| < TWO_32 && data == Prefixed(b) + rest;
      if expected { assert data == Varint(|b|) + (b + rest); }
      var size: nat;
      var eof: bool;
      ok, size, eof := DecodeVarint32(|b|, b + rest);
      if !ok || |data| < size {
        sub := new IStream([]);
        return false, sub;
      }
      sub := new IStream(data[..size]);
      data := data[size..];
    }

    method DecodeInt(f: Field, dest: Value, ghost v: Value, ghost rest: Bytes) returns (ok: bool, dest': Value)
      requires f.ltype.VarintType? || f.ltype.UVarintType? || f.ltype.SVarintType?
      requires Typed(f, dest)
      modifies this
      ensures Typed(f, dest') && |data| <= |old(data)| && (ok ==> |data| < |old(data)|)
      ensures Good(f, v) && old(data) == ScalarBytes(f, v).value + rest ==> ok && dest' == v && data == rest
    {
      hide ReadVarint, Varint, Wrap, WrapUnsigned, UnZigZag;
      ghost var expected := Good(f, v) && data == ScalarBytes(f, v).value + rest;
      dest' := dest;
      if expected {
        ZigZagBounds(v.n);
        Varint64RoundTrip(IntOnWire(f, v.n), rest);
      }
      var value := DecodeVarint();
      if value.None? { return false, dest'; }
      if !IntSize(f.dataSize) { return false, dest'; }
      match f.ltype {
        case UVarintType =>
          WrapFits(value.value, f.dataSize);
          dest' := Num(WrapUnsigned(value.value, f.dataSize));
          ok := dest'.n == value.value;
        case VarintType =>
          if expected { SignExtensionBack(v.n, f.dataSize); }
          var svalue := if f.dataSize == 8 then Wrap(value.value, 8) else Wrap(value.value, 4);
          WrapFits(svalue, f.dataSize);
          dest' := Num(Wrap(svalue, f.dataSize));
          ok := dest'.n == svalue;
        case SVarintType =>
          if expected { UnZigZagBack(v.n); }
          var svalue := UnZigZag(value.value);
          WrapFits(svalue, f.dataSize);
          dest' := Num(Wrap(svalue, f.dataSize));
          ok := dest'.n == svalue;
      }
    }

    method DecodeFixed(f: Field, dest: Value, ghost v: Value, ghost rest: Bytes) returns (ok: bool, dest': Value)
      requires f.ltype.Fixed32Type? || f.ltype.Fixed64Type?
      requires Typed(f, dest)
      modifies this
      ensures Typed(f, dest') && |data| <= |old(data)| && (ok ==> |data| < |old(data)|)
      ensures Good(f, v) && old(data) == ScalarBytes(f, v).value + rest ==> ok && dest' == v && data == rest
    {
      ghost var expected := Good(f, v) && data == ScalarBytes(f, v).value + rest;
      dest' := dest;
      var width := if f.ltype.Fixed32Type? then 4 else 8;
      if expected {
        if width == 4 { Fixed32RoundTrip(v.n); } else { Fixed64RoundTrip(v.n); }
      }
      var b: Bytes;
      ok, b := Read(width);
      if ok {
        FixedBounds(b);
        dest' := Num(Coding.DecodeFixed(b));
      }
    }
  
    method DecodeBlob(f: Field, dest: Value, ghost v: Value, ghost rest: Bytes) returns (ok: bool, dest': Value)
      requires f.ltype.BytesType? || f.ltype.StringType? || f.ltype.FixedBytesType?
      requires Typed(f, dest)
      modifies this
      ensures Typed(f, dest') && |data| <= |old(data)| && (ok ==> |data| < |old(data)|)
      ensures Good(f, v) && old(data) == ScalarBytes(f, v).value + rest ==>
                (ok <==> Terminated(f, v)) && (ok ==> dest' == v && data == rest)
    {
      hide Varint, ScalarBytes, Terminated, Typed, Prefixed;
      ghost var expected := Good(f, v) && data == ScalarBytes(f, v).value + rest;
      if expected { BlobOnWire(f, v, rest); }
      BlobTyped(f);
      dest' := dest;
      var size: nat;
      var eof: bool;
      ok, size, eof := DecodeVarint32(if v.Blob? then |v.b| else 0, if v.Blob? then v.b + rest else rest);
      if !ok { return; }
      var b: Bytes;
      if f.ltype.BytesType? {
        if size + SIZE_BYTES > f.dataSize { return false, dest'; }
        ok, b := Read(size);
        if ok { dest' := Blob(b); }
      } else if f.ltype.StringType? {
        // space for the terminator
        if size + 1 > f.dataSize { return false, dest'; }
        ok, b := Read(size);
        if ok { dest' := Blob(TextOf(b)); }
      } else {
        if size == 0 {
          dest' := Blob(seq(f.dataSize, _ => 0));
          return true, dest';
        }
        if size != f.dataSize { return false, dest'; }
        ok, b := Read(size);
        if ok { dest' := Blob(b); }
      }
    }

    /** The decoder function for the field's type. */
    method DecodeScalar(f: Field, dest: Value, ghost v: Value, ghost rest: Bytes) returns (ok: bool, dest': Value)
      requires GoodField(f) && Typed(f, dest)
      modifies this
      ensures Typed(f, dest') && |data| <= |old(data)| && (ok ==> |data| < |old(data)|)
      ensures Good(f, v) && old(data) == ScalarBytes(f, v).value + rest && dest == DefaultValue(f) ==>
                (ok <==> Terminated(f, v)) && (ok ==> dest' == v && data == rest)
      decreases f, 0
    {
      match f.ltype {
        case VarintType | UVarintType | SVarintType =>
          ok, dest' := DecodeInt(f, dest, v, rest);
        case Fixed32Type | Fixed64Type =>
          ok, dest' := DecodeFixed(f, dest, v, rest);
        case BytesType | StringType | FixedBytesType =>
          ok, dest' := DecodeBlob(f, dest, v, rest);
        case SubmessageType(fields) =>
          ok, dest' := DecodeSubmessage(f, fields, dest, v, rest);
      }
    }

    method DecodeSubmessage(f: Field, fields: seq<Field>, dest: Value, ghost v: Value, ghost rest: Bytes)
      returns (ok: bool, dest': Value)
      requires GoodField(f) && f.ltype == SubmessageType(fields) && Typed(f, dest)
      modifies this
      ensures Typed(f, dest') && |data| <= |old(data)| && (ok ==> |data| < |old(data)|)
      ensures Good(f, v) && old(data) == ScalarBytes(f, v).value + rest && dest == DefaultValue(f) ==>
                (ok <==> Terminated(f, v)) && (ok ==> dest' == v && data == rest)
      decreases fields, 2
    {
      ghost var expected := Good(f, v) && data == ScalarBytes(f, v).value + rest && dest == DefaultValue(f);
      if expected { SubmessageWire(f, fields, v); }
      ghost var b := if expected then MessageBytes(fields, v.slots, |fields|).value else [];
      var sub: IStream;
      ok, sub := MakeSubstream(b, rest);
      if !ok { return false, dest; }
      ghost var m := if v.Msg? then v.slots else [];
      var slots: seq<Slot>;
      if f.htype.Repeated? {
        ok, slots := sub.Decode(fields, dest.slots, m);
      } else {
        ok, slots := sub.DecodeNoInit(fields, dest.slots, m);
      }
      dest' := Msg(slots);
    }

    /** The items of a packed array, as long as there is room for them. */
    method DecodePacked(f: Field, items0: seq<Value>, ghost items: seq<Value>, ghost rest: Bytes)
      returns (ok: bool, items': seq<Value>)
      requires GoodField(f) && f.htype.Repeated? && Packable(f.ltype) && forall i :: 0 <= i < |items0| ==>
                 Typed(f, items0[i])
      modifies this
      ensures (forall i :: 0 <= i < |items'| ==> Typed(f, items'[i])) && |data| <= |old(data)|
      ensures Delivers(f, WT_STRING, Prefixed(BytesOf(PackedBytes(f, items, |items|))), Many(items0), Many(items))
              && old(data) == Prefixed(BytesOf(PackedBytes(f, items, |items|))) + rest ==>
                ok && items' == items && data == rest
      decreases f, 1
    {
      hide Good, PackedBytes, ScalarBytes, Prefixed, PackedTail, GoodField, DefaultValue, Typed;
      ghost var b := BytesOf(PackedBytes(f, items, |items|));
      ghost var expected := Delivers(f, WT_STRING, Prefixed(b), Many(items0), Many(items))
                            && data == Prefixed(b) + rest;
      items' := items0;
      var status := true;
      var sub: IStream;
      ok, sub := MakeSubstream(b, rest);
      if !ok { return; }
      ghost var c := 0;
      if expected { PackedAsTail(f, items, |items|); }
      while |sub.data| > 0 && |items'| < f.htype.arraySize
        invariant fresh(sub) && |data| <= |old(data)|
        invariant forall i :: 0 <= i < |items'| ==> Typed(f, items'[i])
        invariant expected ==> data == rest && 0 <= c <= |items| && items' == items[..c]
                               && sub.data == PackedTail(f, items, c)
        decreases |sub.data|
      {
        if expected {
          if c < |items| { GoodEncodes(f, items[c]); }
          PackedTailNonEmpty(f, items, c);
          PackedTailStep(f, items, c);
        }
        DefaultTyped(f);
        var v: Value;
        ok, v := sub.DecodeScalar(f, DefaultValue(f), if expected then items[c] else Num(0),
                                  if expected then PackedTail(f, items, c + 1) else []);
        if !ok {
          status := false;
          break;
        }
        items' := items' + [v];
        c := c + 1;
      }
      if expected {
        if c < |items| { GoodEncodes(f, items[c]); }
        PackedTailNonEmpty(f, items, c);
      }
      if |sub.data| != 0 { return false, items'; }
      ok := status;
      assert expected ==> items[..|items|] == items;
    }
  
    method DecodeStaticField(f: Field, wireType: nat, slot: Slot, ghost payload: Bytes, ghost after: Slot,
                             ghost rest: Bytes)
      returns (ok: bool, slot': Slot)
      requires GoodField(f) && TypedSlot(f, slot)
      modifies this
      ensures TypedSlot(f, slot') && |data| <= |old(data)|
      ensures Delivers(f, wireType, payload, slot, after) && old(data) == payload + rest ==>
                (ok <==> BringsTerminated(f, after)) && (ok ==> slot' == after && data == rest)
      decreases f, 2
    {
      hide Good, PackedBytes, ScalarBytes, Prefixed;
      ghost var expected := Delivers(f, wireType, payload, slot, after) && data == payload + rest;
      slot' := slot;
      var v: Value;
      match f.htype {
        case Required =>
          ok, v := DecodeScalar(f, slot.v, if after.Single? then after.v else slot.v, rest);
          slot' := Single(v);
        case Optional =>
          ok, v := DecodeScalar(f, slot.v, if after.Maybe? then after.v else slot.v, rest);
          slot' := Maybe(true, v);
        case Repeated(arraySize) =>
          if wireType == WT_STRING && Packable(f.ltype) {
            var items: seq<Value>;
            ok, items := DecodePacked(f, slot.items, if after.Many? then after.items else [], rest);
            slot' := Many(items);
          } else {
            if |slot.items| >= arraySize { return false, slot'; }
            DefaultTyped(f);
            ok, v := DecodeScalar(f, DefaultValue(f), if after.Many? && after.items != []
                                                      then after.items[|after.items| - 1] else DefaultValue(f), rest);
            slot' := Many(slot.items + [v]);
          }
        case OneOf(_) =>
          // the union's memory is first set to the submessage's defaults
          DefaultTyped(f);
          ok, v := DecodeScalar(f, DefaultValue(f), if after.Choice? && after.value.Some? then after.value.value
                                                    else DefaultValue(f), rest);
          slot' := Choice(Some(v));
      }
    }

    /** Decodes fields into a struct already set to defaults. */
    method DecodeNoInit(fields: seq<Field>, slots: seq<Slot>, ghost m: seq<Slot>) returns (ok: bool, slots': seq<Slot>)
      requires GoodFields(fields) && TypedMessage(fields, slots)
      modifies this
      ensures TypedMessage(fields, slots') && |data| <= |old(data)|
      ensures GoodMessage(fields, m) && Encodes(fields, m, old(data)) && slots == Defaults(fields) ==>
                (ok <==> AllTerminated(fields, m)) && (ok ==> slots' == m && data == [])
      decreases fields, 0
    {
      hide GoodMessage, GoodSlot, Delivers, MessageBytes, Records, Wire, After, Defaults, TypedSlot, Good, ScalarBytes,
           SeenAfter, StoreSlot, GoodFields, TagBytes, UpTo, BringsTerminated, AllTerminated, AllBringTerminated;
      ghost var expected := GoodMessage(fields, m) && Encodes(fields, m, data) && slots == Defaults(fields);
      ghost var recs := if expected then Records(fields, m, |fields|) else [];
      ghost var k := 0;
      slots' := slots;
      var pos: nat := 0;
      var seen: set<nat> := {};
      if expected {
        MessageStarts(fields, m, recs);
        NoneBroughtYet(fields, recs);
      }
      while |data| > 0
        invariant TypedMessage(fields, slots') && |data| <= |old(data)| && (pos < |fields| || pos == |fields| == 0)
        invariant expected ==> InRange(fields, recs) && 0 <= k <= |recs| && data == Wire(fields, recs, k)
                               && slots' == After(fields, recs, k)
        invariant expected ==> seen == SeenAfter(fields, recs, k) && AllBringTerminated(fields, recs, k)
        decreases |data|
      {
        ghost var r := Rec(0, 0, [], Choice(None));
        ghost var rest: Bytes := [];
        if expected {
          NextRecord(fields, m, recs, k);
          r, rest := recs[k], Wire(fields, recs, k + 1);
        }
        var wireType: nat, tag: nat, eof: bool;
        ok, wireType, tag, eof := DecodeTag(r.wireType, if expected then fields[r.idx].tag else 1, r.payload + rest);
        if !ok {
          if eof { break; }
          return false, slots';
        }
        var found: bool;
        found, pos := FieldIterFind(fields, pos, tag);
        if !found {
          ok := SkipField(wireType);
          if !ok { return false, slots'; }
          continue;
        }
        if expected {
          SameTag(fields, pos, r.idx);
          NextTerminated(fields, m, recs, k);
        }
        SlotTyped(fields, slots', pos);
        var f := fields[pos];
        if f.htype.Required? && RequiredBefore(fields, pos) < MAX_REQUIRED_FIELDS {
          seen := seen + {RequiredBefore(fields, pos)};
        }
        var slot: Slot;
        ok, slot := DecodeStaticField(f, wireType, slots'[pos], r.payload, r.after, rest);
        StoreTyped(fields, slots', pos, slot);
        slots' := StoreSlot(fields, slots', pos, slot);
        if !ok { return false, slots'; }
        if expected { RecordStored(fields, m, recs, k); }
        k := k + 1;
      }
      if expected { MessageEnds(fields, m, recs, k); }
      var count := CountRequired(fields, pos);
      if count > MAX_REQUIRED_FIELDS { count := MAX_REQUIRED_FIELDS; }
      // every required field has its bit, and no other bit is set
      if seen != UpTo(count) {
        return false, slots';
      }
      ok := true;
    }

    method Decode(fields: seq<Field>, slots: seq<Slot>, ghost m: seq<Slot>) returns (ok: bool, slots': seq<Slot>)
      requires GoodFields(fields) && TypedMessage(fields, slots)
      modifies this
      ensures TypedMessage(fields, slots') && |data| <= |old(data)|
      ensures GoodMessage(fields, m) && Encodes(fields, m, old(data)) ==>
                (ok <==> AllTerminated(fields, m)) && (ok ==> slots' == m && data == [])
      decreases fields, 1
    {
      DefaultsTyped(fields);
      ok, slots' := DecodeNoInit(fields, Defaults(fields), m);
    }
  }

  /** pb_field_iter_find: from the current field around and back to it. */
  method FieldIterFind(fields: seq<Field>, pos: nat, tag: nat) returns (found: bool, pos': nat)
    requires pos < |fields| || pos == |fields| == 0
    ensures pos' < |fields| || pos' == |fields| == 0
    ensures found <==> exists i :: 0 <= i < |fields| && fields[i].tag == tag
    ensures found ==> pos' < |fields| && fields[pos'].tag == tag
  {
    pos' := pos;
    if |fields| == 0 { return false, 0; }
    ghost var wrapped := false;
    while true
      invariant pos' < |fields| && (if wrapped then pos' < pos else pos <= pos')
      invariant forall i :: 0 <= i < |fields| && (if wrapped then i >= pos || i < pos' else pos <= i < pos') ==>
                  fields[i].tag != tag
      decreases if wrapped then pos - pos' else pos + |fields| - pos'
    {
      if fields[pos'].tag == tag { return true, pos'; }
      if pos' + 1 == |fields| {
        pos', wrapped := 0, true;
      } else {
        pos' := pos' + 1;
      }
      if pos' == pos { return false, pos'; }
    }
  }

  /** The iterator's required_field_index at a field. */
  function RequiredBefore(fields: seq<Field>, n: nat): nat
    requires n <= |fields|
  {
    if n == 0 then 0 else RequiredBefore(fields, n - 1) + if fields[n - 1].htype.Required? then 1 else 0
  }

  /** The number of required fields, found by stepping on from the current field to the last. */
  method CountRequired(fields: seq<Field>, pos: nat) returns (count: nat)
    requires pos < |fields| || pos == |fields| == 0
    ensures count == RequiredBefore(fields, |fields|)
  {
    if |fields| == 0 { return 0; }
    var p := pos;
    count := RequiredBefore(fields, p);
    while p + 1 < |fields|
      invariant pos <= p < |fields| && count == RequiredBefore(fields, p)
    {
      p := p + 1;
      count := RequiredBefore(fields, p);
    }
    if fields[p].htype.Required? { count := count + 1; }
  }

  /** The set of the first `n` indices: a mask with that many low bits. */
  function UpTo(n: nat): set<nat> { if n == 0 then {} else UpTo(n - 1) + {n - 1} }

  function AtMostMax(n: nat): nat { if n > MAX_REQUIRED_FIELDS then MAX_REQUIRED_FIELDS else n }

  /** Storing into a union member makes it the one that is set. */
  function StoreSlot(fields: seq<Field>, slots: seq<Slot>, pos: nat, slot: Slot): (r: seq<Slot>)
    requires pos < |fields| == |slots|
    ensures |r| == |fields|
  {
    seq(|fields|,
        j requires 0 <= j < |fields| => if j == pos then slot else if SameUnion(fields[pos], fields[j])
                                                                   then Choice(None) else slots[j])
  }

  /** The required fields among those of the first `k` records, by their required index. */
  function SeenAfter(fields: seq<Field>, recs: seq<Rec>, k: nat): set<nat>
    requires k <= |recs| && InRange(fields, recs)
  {
    if k == 0 then {} else
      SeenAfter(fields, recs, k - 1) +
      if fields[recs[k - 1].idx].htype.Required? && RequiredBefore(fields, recs[k - 1].idx) < MAX_REQUIRED_FIELDS
      then {RequiredBefore(fields, recs[k - 1].idx)} else {}
  }

  /** The number an integer field puts on the wire. */
  function IntOnWire(f: Field, n: int): nat
    requires ZigZag(n) >= 0
  {
    if f.ltype.SVarintType? then ZigZag(n) else ToUnsigned(n)
  }

  lemma ZigZagBounds(n: int)
    ensures ZigZag(n) >= 0 && (SignedFits(n, 8) ==> ZigZag(n) < TWO_64) && ToUnsigned(n) < TWO_64
  {
  }

  lemma FixedBounds(b: Bytes)
    requires |b| == 4 || |b| == 8
    ensures 0 <= Coding.DecodeFixed(b) < if |b| == 4 then TWO_32 else TWO_64
  {
    FixedBound(b);
    assert Pow256(4) == TWO_32 by { assert Pow256(2) == 65536; }
    assert Pow256(8) == TWO_64 by { assert Pow256(2) == 65536; assert Pow256(6) == 65536 * TWO_32; }
  }

  lemma {:induction false} FixedBound(b: Bytes)
    ensures Coding.DecodeFixed(b) < Pow256(|b|)
  {
    if b != [] {
      FixedBound(b[1..]);
    }
  }

  lemma VarintParts(v: nat, rest: Bytes)
    ensures var b := Varint(v) + rest;
            if v < 128 then b[0] == v && b[1..] == rest else b[0] == v % 128 + 128 && b[1..] == Varint(v / 128) + rest
  {
  }

  /** The rest of a varint is still to come: `result` holds the digits read, `w` the others. */
  ghost predicate Partial(data: Bytes, rest: Bytes, v: nat, w: nat, result: nat, scale: nat, bitpos: nat) {
    v < TWO_32 && data == Varint(w) + rest && v == result + w * scale && w >= 1 && result < scale
    && ScaleAt(bitpos, scale)
  }

  lemma PartialStart(data: Bytes, rest: Bytes, v: nat, byte: Byte)
    requires 128 <= v < TWO_32 && data == Varint(v / 128) + rest && byte == v % 128 + 128
    ensures Partial(data, rest, v, v / 128, byte % 128, 128, 7)
  {
  }

  lemma PartialStep(data: Bytes, rest: Bytes, v: nat, w: nat, result: nat, scale: nat, bitpos: nat)
    requires Partial(data, rest, v, w, result, scale, bitpos)
    ensures data != [] && bitpos <= 28
    ensures var byte, result' := data[0], result + data[0] % 128 * scale % TWO_32;
            if byte < 128 then result' == v && data[1..] == rest && (bitpos == 28 ==> byte / 16 % 8 == 0)
            else Partial(data[1..], rest, v, w / 128, result', scale * 128, bitpos + 7)
  {
    hide Varint;
    VarintParts(w, rest);
    NextDigit(v, w, scale, result, bitpos);
  }

  predicate ScaleAt(bitpos: nat, scale: nat) {
    || (bitpos == 7 && scale == 0x80)
    || (bitpos == 14 && scale == 0x4000)
    || (bitpos == 21 && scale == 0x20_0000)
    || (bitpos == 28 && scale == 0x1000_0000)
    || (bitpos == 35 && scale == 0x8_0000_0000)
  }

  /** One more digit of a number below 2^32: there are at most five, and the fifth has four bits. */
  lemma NextDigit(v: nat, w: nat, scale: nat, result: nat, bitpos: nat)
    requires v < TWO_32 && v == result + w * scale && w >= 1 && result < scale && ScaleAt(bitpos, scale)
    ensures bitpos <= 28 && ScaleAt(bitpos + 7, scale * 128)
    ensures var digit := w % 128;
            && digit * scale % TWO_32 == digit * scale
            && v == result + digit * scale + w / 128 * (scale * 128)
            && result + digit * scale < scale * 128
    ensures bitpos == 28 ==> w < 16
  {
    ScaleSplit(w, scale);
  }

  /** The items of a packed array from `c` on. */
  function PackedTail(f: Field, items: seq<Value>, c: nat): Bytes
    requires c <= |items|
    decreases |items| - c
  {
    if c == |items| then [] else BytesOf(ScalarBytes(f, items[c])) + PackedTail(f, items, c + 1)
  }

  lemma {:induction false} PackedAsTail(f: Field, items: seq<Value>, k: nat)
    requires k <= |items| && PackedBytes(f, items, |items|).Some?
    ensures PackedBytes(f, items, k).Some?
    ensures PackedBytes(f, items, k).value + PackedTail(f, items, k) == PackedTail(f, items, 0)
    ensures k == |items| ==> PackedBytes(f, items, k).value == PackedTail(f, items, 0)
  {
    hide ScalarBytes, PackedBytes, PackedTail;
    PackedEnds(f, items);
    PackedSome(f, items, k);
    if k > 0 {
      PackedAsTail(f, items, k - 1);
      PackedStep(f, items, k);
      PackedTailStep(f, items, k - 1);
      Assoc(PackedBytes(f, items, k - 1).value, ScalarBytes(f, items[k - 1]).value, PackedTail(f, items, k), []);
    }
    if k == |items| { assert PackedBytes(f, items, k).value + [] == PackedBytes(f, items, k).value; }
  }

  lemma PackedEnds(f: Field, items: seq<Value>)
    ensures PackedBytes(f, items, 0) == Some([]) && PackedTail(f, items, |items|) == []
    ensures [] + PackedTail(f, items, 0) == PackedTail(f, items, 0)
  {
  }

  lemma PackedStep(f: Field, items: seq<Value>, k: nat)
    requires 0 < k <= |items| && PackedBytes(f, items, k - 1).Some? && ScalarBytes(f, items[k - 1]).Some?
    ensures PackedBytes(f, items, k) == Some(PackedBytes(f, items, k - 1).value + ScalarBytes(f, items[k - 1]).value)
  {
    hide ScalarBytes;
  }

  lemma {:induction false} PackedSome(f: Field, items: seq<Value>, k: nat)
    requires k <= |items| && PackedBytes(f, items, |items|).Some?
    ensures PackedBytes(f, items, k).Some? && (k > 0 ==> ScalarBytes(f, items[k - 1]).Some?)
    decreases |items| - k
  {
    hide ScalarBytes;
    if k < |items| { PackedSome(f, items, k + 1); }
  }

  lemma PackedTailStep(f: Field, items: seq<Value>, c: nat)
    requires c < |items| && ScalarBytes(f, items[c]).Some?
    ensures PackedTail(f, items, c) == ScalarBytes(f, items[c]).value + PackedTail(f, items, c + 1)
  {
    hide ScalarBytes;
  }

  /** While items are left there are bytes left. */
  lemma PackedTailNonEmpty(f: Field, items: seq<Value>, c: nat)
    requires c <= |items| && Packable(f.ltype) && (c < |items| ==> ScalarBytes(f, items[c]).Some?)
    ensures PackedTail(f, items, c) == [] <==> c == |items|
  {
  }

  // ---------- following the records ----------

  lemma MessageStarts(fields: seq<Field>, m: seq<Slot>, recs: seq<Rec>)
    requires GoodMessage(fields, m) && recs == Records(fields, m, |fields|)
    ensures InRange(fields, recs) && MessageBytes(fields, m, |fields|).value == Wire(fields, recs, 0)
    ensures After(fields, recs, 0) == Defaults(fields) && SeenAfter(fields, recs, 0) == {}
  {
    MessageOnWire(fields, m, |fields|);
  }

  lemma GoodTag(fields: seq<Field>, i: nat)
    requires GoodFields(fields) && i < |fields|
    ensures GoodField(fields[i]) && 1 <= fields[i].tag < 0x2000_0000
  {
  }

  lemma SameTag(fields: seq<Field>, i: nat, j: nat)
    requires GoodFields(fields) && i < |fields| && j < |fields| && fields[i].tag == fields[j].tag
    ensures i == j
  {
  }

  lemma SlotTyped(fields: seq<Field>, slots: seq<Slot>, i: nat)
    requires GoodFields(fields) && TypedMessage(fields, slots) && i < |fields|
    ensures GoodField(fields[i]) && TypedSlot(fields[i], slots[i])
  {
  }

  lemma StoreTyped(fields: seq<Field>, slots: seq<Slot>, pos: nat, slot: Slot)
    requires TypedMessage(fields, slots) && pos < |fields| && TypedSlot(fields[pos], slot)
    ensures TypedMessage(fields, StoreSlot(fields, slots, pos, slot))
  {
  }

  lemma DeliversWire(f: Field, wireType: nat, payload: Bytes, before: Slot, after: Slot)
    requires Delivers(f, wireType, payload, before, after)
    ensures wireType < 8
  {
  }

  lemma WireStep(fields: seq<Field>, recs: seq<Rec>, k: nat)
    requires InRange(fields, recs) && k <= |recs|
    ensures k == |recs| ==> Wire(fields, recs, k) == []
    ensures k < |recs| ==> Wire(fields, recs, k) != [] && recs[k].idx < |fields|
    ensures k < |recs| ==>
              Wire(fields, recs, k) == TagBytes(recs[k].wireType,
                                                fields[recs[k].idx].tag) + (recs[k].payload + Wire(fields, recs, k + 1))
  {
  }

  /** What the next round of the loop finds on the stream. */
  lemma NextRecord(fields: seq<Field>, m: seq<Slot>, recs: seq<Rec>, k: nat)
    requires GoodFields(fields) && GoodMessage(fields, m) && recs == Records(fields, m, |fields|)
    requires InRange(fields, recs) && k <= |recs| && Wire(fields, recs, k) != []
    ensures k < |recs| && recs[k].idx < |fields|
    ensures var r := recs[k]; var f := fields[r.idx];
            && r.wireType < 8 && 1 <= f.tag < 0x2000_0000
            && Wire(fields, recs, k) == TagBytes(r.wireType, f.tag) + (r.payload + Wire(fields, recs, k + 1))
            && Delivers(f, r.wireType, r.payload, After(fields, recs, k)[r.idx], r.after)
  {
    hide Wire, After, Records, MessageBytes, Delivers, GoodSlot, GoodField, TagBytes;
    WireStep(fields, recs, k);
    GoodTag(fields, recs[k].idx);
    RecordDelivers(fields, m, |fields|, k);
    DeliversWire(fields[recs[k].idx], recs[k].wireType, recs[k].payload, After(fields, recs, k)[recs[k].idx],
                 recs[k].after);
  }

  /** Storing the record's slot is all that happens to the struct: other members of its union are unset already. */
  lemma RecordStored(fields: seq<Field>, m: seq<Slot>, recs: seq<Rec>, k: nat)
    requires GoodMessage(fields, m) && recs == Records(fields, m, |fields|)
    requires InRange(fields, recs) && k < |recs| && recs[k].idx < |fields|
    ensures StoreSlot(fields, After(fields, recs, k), recs[k].idx, recs[k].after) == After(fields, recs, k + 1)
    ensures SeenAfter(fields, recs, k + 1) == SeenAfter(fields, recs, k) +
              if fields[recs[k].idx].htype.Required? && RequiredBefore(fields, recs[k].idx) < MAX_REQUIRED_FIELDS
              then {RequiredBefore(fields, recs[k].idx)} else {}
  {
    hide Records, MessageBytes, GoodSlot;
    var idx := recs[k].idx;
    forall j | 0 <= j < |fields| && j != idx && SameUnion(fields[idx], fields[j])
      ensures After(fields, recs, k)[j] == Choice(None)
    {
      RecordOwner(fields, m, |fields|, k);
      UnionOwner(fields, m, idx, j);
      UnsetStays(fields, m, |fields|, k, j);
    }
  }

  lemma UnionOwner(fields: seq<Field>, m: seq<Slot>, i: nat, j: nat)
    requires GoodMessage(fields, m) && i < |fields| && j < |fields| && i != j && SameUnion(fields[i], fields[j])
    requires m[i] != Choice(None)
    ensures m[j] == Choice(None)
  {
    assert GoodSlot(fields[i], m[i]);
  }

  lemma MessageEnds(fields: seq<Field>, m: seq<Slot>, recs: seq<Rec>, k: nat)
    requires GoodMessage(fields, m) && recs == Records(fields, m, |fields|)
    requires InRange(fields, recs) && k <= |recs| && Wire(fields, recs, k) == [] && AllBringTerminated(fields, recs, k)
    ensures After(fields, recs, k) == m && AllTerminated(fields, m)
    ensures SeenAfter(fields, recs, k) == UpTo(AtMostMax(RequiredBefore(fields, |fields|)))
  {
    hide Wire, After, Records, MessageBytes, GoodSlot, BringsTerminated, TerminatedSlot;
    WireStep(fields, recs, k);
    RecordsTerminated(fields, m, |fields|);
    AfterAll(fields, m, |fields|);
    AllSeen(fields, m, |fields|);
    assert m[..|fields|] + Defaults(fields)[|fields|..] == m;
  }

  /** The next record decides whether to go on. */
  lemma NextTerminated(fields: seq<Field>, m: seq<Slot>, recs: seq<Rec>, k: nat)
    requires |m| == |fields| && recs == Records(fields, m, |fields|)
    requires InRange(fields, recs) && k < |recs| && AllBringTerminated(fields, recs, k)
    ensures recs[k].idx < |fields|
    ensures if BringsTerminated(fields[recs[k].idx], recs[k].after) then AllBringTerminated(fields, recs, k + 1)
            else !AllTerminated(fields, m)
  {
    hide Records, TerminatedSlot;
    RecordsTerminated(fields, m, |fields|);
  }

  lemma {:induction false} SeenPrefix(fields: seq<Field>, a: seq<Rec>, b: seq<Rec>, k: nat)
    requires InRange(fields, a) && InRange(fields, b) && k <= |a|
    ensures InRange(fields, a + b) && SeenAfter(fields, a + b, k) == SeenAfter(fields, a, k)
  {
    if k > 0 {
      SeenPrefix(fields, a, b, k - 1);
    }
  }

  lemma {:induction false} SeenOptional(fields: seq<Field>, a: seq<Rec>, b: seq<Rec>, k: nat)
    requires InRange(fields, a) && InRange(fields, b) && k <= |b| && forall i :: 0 <= i < |b| ==>
               !fields[b[i].idx].htype.Required?
    ensures InRange(fields, a + b) && SeenAfter(fields, a + b, |a| + k) == SeenAfter(fields, a, |a|)
  {
    if k == 0 {
      SeenPrefix(fields, a, b, |a|);
    } else {
      SeenOptional(fields, a, b, k - 1);
    }
  }

  /** Every required field has a record, so none is found missing. */
  lemma {:induction false} AllSeen(fields: seq<Field>, m: seq<Slot>, n: nat)
    requires n <= |fields| == |m| && forall i :: 0 <= i < |fields| ==> GoodSlot(fields[i], m[i])
    ensures InRange(fields, Records(fields, m, n))
    ensures SeenAfter(fields, Records(fields, m, n), |Records(fields, m, n)|) ==
            UpTo(AtMostMax(RequiredBefore(fields, n)))
  {
    hide GoodSlot, SlotRecords, SeenAfter, InRange, UpTo, AtMostMax;
    RecordsInRange(fields, m, n);
    AllInRange(fields, Records(fields, m, n));
    if n == 0 {
      NoneSeen(fields, Records(fields, m, 0));
      OneMore(0);
    } else {
      var a, b := Records(fields, m, n - 1), SlotRecords(n - 1, fields[n - 1], m[n - 1]);
      AllSeen(fields, m, n - 1);
      SlotRecordsIdx(n - 1, fields[n - 1], m[n - 1]);
      AllInRange(fields, b);
      if fields[n - 1].htype.Required? {
        RequiredHasOne(n - 1, fields[n - 1], m[n - 1]);
        SeenRequired(fields, a, b, n - 1);
        OneMore(RequiredBefore(fields, n - 1));
      } else {
        SeenOptional(fields, a, b, |b|);
      }
    }
  }

  lemma OneMore(n: nat)
    ensures UpTo(AtMostMax(n + 1)) == UpTo(AtMostMax(n)) + if n < MAX_REQUIRED_FIELDS then {n} else {}
    ensures UpTo(AtMostMax(0)) == {}
  {
  }

  lemma NoneSeen(fields: seq<Field>, recs: seq<Rec>)
    requires InRange(fields, recs)
    ensures SeenAfter(fields, recs, 0) == {}
  {
  }

  lemma SeenRequired(fields: seq<Field>, a: seq<Rec>, b: seq<Rec>, idx: nat)
    requires InRange(fields, a) && InRange(fields, b) && |b| == 1 && b[0].idx == idx && idx < |fields|
    requires fields[idx].htype.Required?
    ensures InRange(fields, a + b)
    ensures SeenAfter(fields, a + b, |a| + 1) ==
              SeenAfter(fields, a, |a|) + if RequiredBefore(fields, idx) < MAX_REQUIRED_FIELDS
                                          then {RequiredBefore(fields, idx)} else {}
  {
    SeenPrefix(fields, a, b, |a|);
    assert (a + b)[|a|] == b[0];
  }

  lemma AllInRange(fields: seq<Field>, recs: seq<Rec>)
    requires forall k :: 0 <= k < |recs| ==> recs[k].idx < |fields|
    ensures InRange(fields, recs)
  {
  }

  lemma RequiredHasOne(idx: nat, f: Field, s: Slot)
    requires GoodSlot(f, s) && f.htype.Required?
    ensures |SlotRecords(idx, f, s)| == 1
  {
  }
}
