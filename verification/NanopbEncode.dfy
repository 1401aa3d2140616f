/** nanopb's encoder (pb_encode.c): output streams, the sizing pass and the writing pass. */
module NanopbEncode {
  import opened Wrappers
  import opened Keys
  import opened Coding
  import opened NanopbTypes

  datatype OState = OState(writing: bool, out: Bytes, maxSize: nat, written: nat)

  ghost predicate HasRoom(s: OState) { s.writing ==> s.written <= s.maxSize }

  /**
   An encoding routine that stands for `b` took the stream from `s` to `s'`: it succeeds iff `b`
   is encodable and, when really writing, fits; a failed one never overruns the buffer.
   */
  ghost predicate Did(s: OState, s': OState, b: Option<Bytes>, ok: bool) {
    && s'.writing == s.writing && s'.maxSize == s.maxSize && s.written <= s'.written
    && HasRoom(s')
    && (if s.writing then s.out <= s'.out && |s'.out| - |s.out| == s'.written - s.written else s'.out == s.out)
    && (ok <==> b.Some? && (s.writing ==> s.written + |b.value| <= s.maxSize))
    && (ok ==> s'.written == s.written + |b.value| && (s.writing ==> s'.out == s.out + b.value))
  }

  lemma DidNothing(s: OState)
    requires HasRoom(s)
    ensures Did(s, s, Some([]), true)
  {
  }

  lemma DidBoth(s: OState, s': OState, s'': OState, a: Option<Bytes>, b: Option<Bytes>, ok: bool)
    requires HasRoom(s) && Did(s, s', a, true) && Did(s', s'', b, ok)
    ensures Did(s, s'', Join(a, b), ok)
  {
    if ok && s.writing { assert s''.out == s.out + (a.value + b.value); }
  }

  lemma DidFail(s: OState, s': OState, a: Option<Bytes>, b: Option<Bytes>)
    requires Did(s, s', a, false)
    ensures Did(s, s', Join(a, b), false)
  {
  }

  /** Seven bits a byte, every byte marked as not the last. */
  function Marked(v: nat): Bytes { if v == 0 then [] else [v % 128 + 128] + Marked(v / 128) }

  /** Unmarking the last byte makes it a varint. */
  lemma {:induction false} MarkedIsVarint(v: nat)
    requires v > 0
    ensures var b := Marked(v); |b| > 0 && b[..|b| - 1] + [b[|b| - 1] % 128] == Varint(v)
  {
    var b := Marked(v);
    if v < 128 {
      assert Marked(v / 128) == [];
    } else {
      MarkedIsVarint(v / 128);
      var rest := Marked(v / 128);
      assert b[..|b| - 1] == [v % 128 + 128] + rest[..|rest| - 1];
    }
  }

  lemma MarkedStep(before: Bytes, v: nat)
    ensures v > 0 ==> before + Marked(v) == before + [v % 128 + 128] + Marked(v / 128)
    ensures v == 0 ==> before + Marked(v) == before
  {
  }

  lemma OneByte(v: nat)
    requires v < 128
    ensures Varint(v) == [v]
  {
  }

  method MarkAll(value: nat) returns (buffer: Bytes)
    ensures buffer == Marked(value)
  {
    hide Marked;
    buffer := [];
    var v: nat := value;
    Unmarked(value);
    while v > 0
      invariant buffer + Marked(v) == Marked(value)
      decreases v
    {
      MarkedStep(buffer, v);
      buffer := buffer + [v % 128 + 128];
      v := v / 128;
    }
    MarkedStep(buffer, v);
  }

  lemma Unmarked(v: nat)
    ensures [] + Marked(v) == Marked(v)
  {
  }

  method VarintBuffer(value: nat) returns (buffer: Bytes)
    ensures buffer == Varint(value)
  {
    hide Varint, Marked;
    if value <= 0x7F {
      OneByte(value);
      return [value];
    }
    buffer := MarkAll(value);
    MarkedIsVarint(value);
    // the top bit of the last byte is cleared
    buffer := buffer[..|buffer| - 1] + [buffer[|buffer| - 1] % 128];
  }

  class OStream {
    /** Not writing means only counting: a stream without a callback. */
    const writing: bool
    var out: Bytes
    const maxSize: nat
    var bytesWritten: nat

    ghost function State(): OState
      reads this
    {
      OState(writing, out, maxSize, bytesWritten)
    }

    constructor FromBuffer(maxSize: nat)
      ensures State() == OState(true, [], maxSize, 0)
    {
      writing, out, this.maxSize, bytesWritten := true, [], maxSize, 0;
    }

    constructor Sizing()
      ensures State() == OState(false, [], 0, 0)
    {
      writing, out, maxSize, bytesWritten := false, [], 0, 0;
    }

    constructor Sub(parent: OStream, size: nat)
      ensures State() == OState(parent.writing, parent.out, size, 0)
    {
      writing, out, maxSize, bytesWritten := parent.writing, parent.out, size, 0;
    }

    method Write(buf: Bytes) returns (ok: bool)
      requires HasRoom(State())
      modifies this
      ensures Did(old(State()), State(), Some(buf), ok)
    {
      if writing {
        if bytesWritten + |buf| > maxSize {
          return false;
        }
        out := out + buf;
      }
      bytesWritten := bytesWritten + |buf|;
      return true;
    }

    /** Only counts: the sizing pass hands no data. */
    method Skip(count: nat, ghost buf: Bytes)
      requires HasRoom(State()) && !writing && |buf| == count
      modifies this
      ensures Did(old(State()), State(), Some(buf), true)
    {
      bytesWritten := bytesWritten + count;
    }

    method EncodeVarint(value: nat) returns (ok: bool)
      requires HasRoom(State())
      modifies this
      ensures Did(old(State()), State(), Some(Varint(value)), ok)
    {
      var buffer := VarintBuffer(value);
      ok := Write(buffer);
    }

    method EncodeSVarint(value: int) returns (ok: bool)
      requires HasRoom(State()) && SignedFits(value, 8)
      modifies this
      ensures Did(old(State()), State(), Some(Varint(ZigZag(value))), ok)
    {
      var zigzagged: nat;
      if value < 0 {
        // the complement of the value shifted left by one, in 64 bits
        zigzagged := TWO_64 - 1 - value % TWO_64 * 2 % TWO_64;
      } else {
        zigzagged := value % TWO_64 * 2 % TWO_64;
      }
      ZigZagInWords(value);
      ok := EncodeVarint(zigzagged);
    }

    method EncodeFixed32(value: nat) returns (ok: bool)
      requires HasRoom(State())
      modifies this
      ensures Did(old(State()), State(), Some(Fixed32(value)), ok)
    {
      ok := Write(Fixed32(value));
    }

    method EncodeFixed64(value: nat) returns (ok: bool)
      requires HasRoom(State())
      modifies this
      ensures Did(old(State()), State(), Some(Fixed64(value)), ok)
    {
      ok := Write(Fixed64(value));
    }

    method EncodeTag(wireType: nat, tag: nat) returns (ok: bool)
      requires HasRoom(State())
      modifies this
      ensures Did(old(State()), State(), Some(TagBytes(wireType, tag)), ok)
    {
      ok := EncodeVarint(tag * 8 + wireType);
    }

    method EncodeString(buf: Bytes) returns (ok: bool)
      requires HasRoom(State())
      modifies this
      ensures Did(old(State()), State(), Some(Prefixed(buf)), ok)
    {
      ghost var s0 := State();
      ok := EncodeVarint(|buf|);
      if !ok {
        DidFail(s0, State(), Some(Varint(|buf|)), Some(buf));
        return;
      }
      ghost var s1 := State();
      ok := Write(buf);
      DidBoth(s0, s1, State(), Some(Varint(|buf|)), Some(buf), ok);
    }
  
    method EncodeTagForField(f: Field) returns (ok: bool)
      requires HasRoom(State())
      modifies this
      ensures Did(old(State()), State(), Some(TagBytes(WireType(f.ltype), f.tag)), ok)
    {
      ok := EncodeTag(WireType(f.ltype), f.tag);
    }

    /** The encoder function for the field's type. */
    method EncodeScalar(f: Field, v: Value) returns (ok: bool)
      requires HasRoom(State()) && Typed(f, v)
      modifies this
      ensures Did(old(State()), State(), ScalarBytes(f, v), ok)
      decreases f, 0, 0
    {
      ghost var s0 := State();
      match f.ltype {
        case VarintType =>
          if !IntSize(f.dataSize) { return false; }
          ok := EncodeVarint(v.n % TWO_64);
        case UVarintType =>
          if !IntSize(f.dataSize) { return false; }
          ok := EncodeVarint(v.n);
        case SVarintType =>
          if !IntSize(f.dataSize) { return false; }
          ok := EncodeSVarint(v.n);
        case Fixed32Type =>
          ok := EncodeFixed32(v.n);
        case Fixed64Type =>
          ok := EncodeFixed64(v.n);
        case BytesType =>
          if |v.b| + SIZE_BYTES > f.dataSize { return false; }
          ok := EncodeString(v.b);
        case StringType =>
          var size := 0;
          while size < f.dataSize && size < |v.b| && v.b[size] != 0
            invariant 0 <= size <= |v.b|
          {
            size := size + 1;
          }
          assert v.b[..size] == v.b;
          ok := EncodeString(v.b[..size]);
        case FixedBytesType =>
          ok := EncodeString(v.b);
        case SubmessageType(fields) =>
          ok := EncodeSubmessage(f, fields, v.slots);
      }
    }

    method EncodeSubmessage(ghost f: Field, fields: seq<Field>, slots: seq<Slot>) returns (ok: bool)
      requires HasRoom(State()) && f.ltype == SubmessageType(fields) && TypedMessage(fields, slots)
      modifies this
      ensures Did(old(State()), State(), ScalarBytes(f, Msg(slots)), ok)
      decreases fields, |fields| + 1
    {
      ghost var s0 := State();
      ghost var b := MessageBytes(fields, slots, |fields|);
      // first the size, by a pass that writes nothing
      var substream := new OStream.Sizing();
      ok := substream.Encode(fields, slots);
      if !ok { return; }
      var size := substream.bytesWritten;
      ok := EncodeVarint(size);
      if !ok {
        DidFail(s0, State(), Some(Varint(|b.value|)), b);
        return;
      }
      ghost var s1 := State();
      if !writing {
        Skip(size, b.value);
        DidBoth(s0, s1, State(), Some(Varint(|b.value|)), b, true);
        return true;
      }
      if bytesWritten + size > maxSize {
        DidBoth(s0, s1, State(), Some(Varint(|b.value|)), b, false);
        return false;
      }
      substream := new OStream.Sub(this, size);
      ghost var t0 := substream.State();
      var status := substream.Encode(fields, slots);
      bytesWritten := bytesWritten + substream.bytesWritten;
      out := substream.out;
      DidSub(s1, t0, substream.State(), State(), b, status);
      DidBoth(s0, s1, State(), Some(Varint(|b.value|)), b, status);
      if substream.bytesWritten != size {
        return false;
      }
      return status;
    }

    /** All items of a repeated field, packed where the type allows it. */
    method EncodeArray(f: Field, items: seq<Value>) returns (ok: bool)
      requires HasRoom(State()) && f.htype.Repeated? && TypedSlot(f, Many(items))
      modifies this
      ensures Did(old(State()), State(), SlotBytes(f, Many(items)), ok)
      decreases f, 2, 0
    {
      if |items| == 0 { return true; }
      if |items| > f.htype.arraySize { return false; }
      if Packable(f.ltype) {
        ok := EncodePacked(f, items);
      } else {
        ghost var s0 := State();
        DidNothing(s0);
        var i := 0;
        while i < |items|
          invariant 0 <= i <= |items| && Did(s0, State(), UnpackedBytes(f, items, i), true)
        {
          ghost var s1 := State();
          ok := EncodeTagged(f, items[i]);
          DidBoth(s0, s1, State(), UnpackedBytes(f, items, i), TaggedBytes(f, items[i]), ok);
          if !ok {
            FailsLater(f, items, i + 1, s0, State());
            return false;
          }
          i := i + 1;
        }
        ok := true;
      }
    }
  
    /** The total size of a packed array, by arithmetic or by a pass that only counts. */
    method PackedSize(f: Field, items: seq<Value>) returns (ok: bool, size: nat)
      requires Packable(f.ltype) && forall i :: 0 <= i < |items| ==> Typed(f, items[i])
      ensures ok <==> PackedBytes(f, items, |items|).Some?
      ensures ok ==> size == |PackedBytes(f, items, |items|).value|
      decreases f, 1, 0
    {
      if f.ltype.Fixed32Type? {
        FixedItems(f, items, |items|, 4);
        return true, 4 * |items|;
      } else if f.ltype.Fixed64Type? {
        FixedItems(f, items, |items|, 8);
        return true, 8 * |items|;
      }
      var sizestream := new OStream.Sizing();
      ok := sizestream.EncodeItems(f, items);
      size := sizestream.bytesWritten;
    }

    method EncodeItems(f: Field, items: seq<Value>) returns (ok: bool)
      requires HasRoom(State()) && forall i :: 0 <= i < |items| ==> Typed(f, items[i])
      modifies this
      ensures Did(old(State()), State(), PackedBytes(f, items, |items|), ok)
      decreases f, 0, 1
    {
      ghost var s0 := State();
      DidNothing(s0);
      var i := 0;
      while i < |items|
        invariant 0 <= i <= |items| && Did(s0, State(), PackedBytes(f, items, i), true)
      {
        ghost var s1 := State();
        ok := EncodeScalar(f, items[i]);
        DidBoth(s0, s1, State(), PackedBytes(f, items, i), ScalarBytes(f, items[i]), ok);
        if !ok {
          PackedFailsLater(f, items, i + 1, s0, State());
          return false;
        }
        i := i + 1;
      }
      ok := true;
    }

    method EncodePacked(f: Field, items: seq<Value>) returns (ok: bool)
      requires HasRoom(State()) && Packable(f.ltype) && forall i :: 0 <= i < |items| ==> Typed(f, items[i])
      modifies this
      ensures Did(old(State()), State(), PackedField(f, items), ok)
      decreases f, 1, 1
    {
      ghost var s0 := State();
      ghost var tag, b := Some(TagBytes(WT_STRING, f.tag)), PackedBytes(f, items, |items|);
      ok := EncodeTag(WT_STRING, f.tag);
      if !ok {
        DidFail(s0, State(), tag, Sized(b));
        return;
      }
      ghost var s1 := State();
      var size: nat;
      ok, size := PackedSize(f, items);
      if !ok {
        DidFailed(s1);
        DidBoth(s0, s1, State(), tag, Sized(b), false);
        return;
      }
      ok := EncodeVarint(size);
      if !ok {
        DidFail(s1, State(), Some(Varint(size)), b);
        DidBoth(s0, s1, State(), tag, Sized(b), false);
        return;
      }
      ghost var s2 := State();
      if !writing {
        Skip(size, b.value);
        ok := true;
      } else {
        ok := EncodeItems(f, items);
      }
      DidBoth(s1, s2, State(), Some(Varint(size)), b, ok);
      DidBoth(s0, s1, State(), tag, Sized(b), ok);
    }

    method EncodeTagged(f: Field, v: Value) returns (ok: bool)
      requires HasRoom(State()) && Typed(f, v)
      modifies this
      ensures Did(old(State()), State(), TaggedBytes(f, v), ok)
      decreases f, 1, 0
    {
      ghost var s0 := State();
      ok := EncodeTagForField(f);
      if !ok {
        DidFail(s0, State(), Some(TagBytes(WireType(f.ltype), f.tag)), ScalarBytes(f, v));
        return;
      }
      ghost var s1 := State();
      ok := EncodeScalar(f, v);
      DidBoth(s0, s1, State(), Some(TagBytes(WireType(f.ltype), f.tag)), ScalarBytes(f, v), ok);
    }

    method EncodeBasicField(f: Field, s: Slot) returns (ok: bool)
      requires HasRoom(State()) && TypedSlot(f, s)
      modifies this
      ensures Did(old(State()), State(), SlotBytes(f, s), ok)
      decreases f, 3, 0
    {
      DidNothing(State());
      ok := true;
      match f.htype {
        case Required =>
          ok := EncodeTagged(f, s.v);
        case Optional =>
          if s.has {
            ok := EncodeTagged(f, s.v);
          }
        case Repeated(_) =>
          ok := EncodeArray(f, s.items);
        case OneOf(_) =>
          if s.value.Some? {
            ok := EncodeTagged(f, s.value.value);
          }
      }
    }

    /** All fields in descriptor order. */
    method Encode(fields: seq<Field>, slots: seq<Slot>) returns (ok: bool)
      requires HasRoom(State()) && TypedMessage(fields, slots)
      modifies this
      ensures Did(old(State()), State(), MessageBytes(fields, slots, |fields|), ok)
      decreases fields, |fields|
    {
      ghost var s0 := State();
      DidNothing(s0);
      var i := 0;
      while i < |fields|
        invariant 0 <= i <= |fields| && Did(s0, State(), MessageBytes(fields, slots, i), true)
      {
        ghost var s1 := State();
        ok := EncodeBasicField(fields[i], slots[i]);
        DidBoth(s0, s1, State(), MessageBytes(fields, slots, i), SlotBytes(fields[i], slots[i]), ok);
        if !ok {
          MessageFailsLater(fields, slots, i + 1, s0, State());
          return false;
        }
        i := i + 1;
      }
      ok := true;
    }
  }

  lemma ZigZagInWords(n: int)
    requires SignedFits(n, 8)
    ensures n < 0 ==> TWO_64 - 1 - n % TWO_64 * 2 % TWO_64 == ZigZag(n)
    ensures n >= 0 ==> n % TWO_64 * 2 % TWO_64 == ZigZag(n)
    ensures 0 <= ZigZag(n) < TWO_64
  {
    if n < 0 {
      assert n % TWO_64 == n + TWO_64;
      assert (n + TWO_64) * 2 % TWO_64 == 2 * n + TWO_64 by {
        assert (n + TWO_64) * 2 == (2 * n + TWO_64) + TWO_64;
      }
    }
  }

  /** A failed part fails the whole, whatever follows it. */
  lemma {:induction false} FailsLater(f: Field, items: seq<Value>, i: nat, s: OState, s': OState)
    requires i <= |items| && Did(s, s', UnpackedBytes(f, items, i), false)
    ensures Did(s, s', UnpackedBytes(f, items, |items|), false)
    decreases |items| - i
  {
    if i < |items| {
      DidFail(s, s', UnpackedBytes(f, items, i), TaggedBytes(f, items[i]));
      FailsLater(f, items, i + 1, s, s');
    }
  }

  lemma {:induction false} PackedFailsLater(f: Field, items: seq<Value>, i: nat, s: OState, s': OState)
    requires i <= |items| && Did(s, s', PackedBytes(f, items, i), false)
    ensures Did(s, s', PackedBytes(f, items, |items|), false)
    decreases |items| - i
  {
    if i < |items| {
      DidFail(s, s', PackedBytes(f, items, i), ScalarBytes(f, items[i]));
      PackedFailsLater(f, items, i + 1, s, s');
    }
  }

  lemma {:induction false} MessageFailsLater(fields: seq<Field>, slots: seq<Slot>, i: nat, s: OState, s': OState)
    requires i <= |fields| == |slots| && Did(s, s', MessageBytes(fields, slots, i), false)
    ensures Did(s, s', MessageBytes(fields, slots, |fields|), false)
    decreases |fields| - i
  {
    if i < |fields| {
      DidFail(s, s', MessageBytes(fields, slots, i), SlotBytes(fields[i], slots[i]));
      MessageFailsLater(fields, slots, i + 1, s, s');
    }
  }

  lemma {:induction false} FixedItems(f: Field, items: seq<Value>, k: nat, width: nat)
    requires k <= |items| && forall i :: 0 <= i < |items| ==> Typed(f, items[i])
    requires (f.ltype.Fixed32Type? && width == 4) || (f.ltype.Fixed64Type? && width == 8)
    ensures PackedBytes(f, items, k).Some? && |PackedBytes(f, items, k).value| == width * k
  {
    if k > 0 {
      FixedItems(f, items, k - 1, width);
      assert Typed(f, items[k - 1]);
    }
  }

  lemma DidFailed(s: OState)
    requires HasRoom(s)
    ensures Did(s, s, None, false)
  {
  }

  /** The writing pass through a substream is the same as writing to the stream itself. */
  lemma DidSub(s: OState, t: OState, t': OState, s': OState, b: Option<Bytes>, ok: bool)
    requires s.writing && HasRoom(s) && b.Some? && s.written + |b.value| <= s.maxSize
    requires t == OState(true, s.out, |b.value|, 0) && Did(t, t', b, ok)
    requires s' == s.(out := t'.out, written := s.written + t'.written)
    ensures ok && Did(s, s', b, true) && t'.written == |b.value|
  {
  }
}
