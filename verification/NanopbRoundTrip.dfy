/** What encoding and decoding promise together, for every message a struct can hold. */
module NanopbRoundTrip {
  import opened Wrappers
  import opened Keys
  import opened Coding
  import opened NanopbTypes
  import NanopbEncode
  import NanopbDecode

  // ---------- unset parts do not count ----------

  /** The message with everything that is not set replaced by its default. */
  function Canon(fields: seq<Field>, slots: seq<Slot>): (r: seq<Slot>)
    requires |slots| == |fields|
    ensures |r| == |fields|
    decreases fields
  {
    seq(|fields|, i requires 0 <= i < |fields| => CanonSlot(fields[i], slots[i]))
  }

  function CanonSlot(f: Field, s: Slot): Slot
    decreases f, 1
  {
    match s
    case Single(v) => Single(CanonValue(f, v))
    case Maybe(has, v) => if has then Maybe(true, CanonValue(f, v)) else Maybe(false, DefaultValue(f))
    case Many(items) => Many(CanonItems(f, items))
    case Choice(v) => if v.Some? then Choice(Some(CanonValue(f, v.value))) else s
  }

  function CanonItems(f: Field, items: seq<Value>): (r: seq<Value>)
    ensures |r| == |items|
    decreases f, 1, 0
  {
    seq(|items|, i requires 0 <= i < |items| => CanonValue(f, items[i]))
  }

  function CanonValue(f: Field, v: Value): Value
    decreases f, 0
  {
    if f.ltype.SubmessageType? && v.Msg? && |v.slots| == |f.ltype.fields| then Msg(Canon(f.ltype.fields, v.slots))
    else v
  }

  lemma {:induction false} SameScalar(f: Field, v: Value)
    ensures ScalarBytes(f, CanonValue(f, v)) == ScalarBytes(f, v)
    decreases f, 0, 0
  {
    if f.ltype.SubmessageType? && v.Msg? && |v.slots| == |f.ltype.fields| {
      SameMessage(f.ltype.fields, v.slots, |v.slots|);
    }
  }

  lemma {:induction false} SamePacked(f: Field, items: seq<Value>, k: nat)
    requires k <= |items|
    ensures PackedBytes(f, CanonItems(f, items), k) == PackedBytes(f, items, k)
    decreases f, 1, k
  {
    hide ScalarBytes, CanonValue;
    if k > 0 {
      SamePacked(f, items, k - 1);
      SameScalar(f, items[k - 1]);
    }
  }

  lemma {:induction false} SameUnpacked(f: Field, items: seq<Value>, k: nat)
    requires k <= |items|
    ensures UnpackedBytes(f, CanonItems(f, items), k) == UnpackedBytes(f, items, k)
    decreases f, 1, k
  {
    hide ScalarBytes, CanonValue;
    if k > 0 {
      SameUnpacked(f, items, k - 1);
      SameScalar(f, items[k - 1]);
    }
  }

  lemma SameSlot(f: Field, s: Slot)
    ensures SlotBytes(f, CanonSlot(f, s)) == SlotBytes(f, s)
    decreases f, 2, 0
  {
    hide ScalarBytes, CanonValue, PackedBytes, UnpackedBytes;
    match s {
      case Single(v) => SameScalar(f, v);
      case Maybe(has, v) => SameScalar(f, v);
      case Choice(v) => if v.Some? { SameScalar(f, v.value); }
      case Many(items) =>
        SamePacked(f, items, |items|);
        SameUnpacked(f, items, |items|);
    }
  }

  /** What is not set does not show in the encoding. */
  lemma {:induction false} SameMessage(fields: seq<Field>, slots: seq<Slot>, n: nat)
    requires n <= |fields| == |slots|
    ensures MessageBytes(fields, Canon(fields, slots), n) == MessageBytes(fields, slots, n)
    decreases fields, n
  {
    hide SlotBytes, CanonSlot;
    if n > 0 {
      SameMessage(fields, slots, n - 1);
      SameSlot(fields[n - 1], slots[n - 1]);
    }
  }

  // ---------- which messages survive ----------

  /** Encodable, no part of 4 GB or more, one member a union. */
  ghost predicate Sound(f: Field, v: Value)
    decreases f, 0
  {
    && Typed(f, v) && ScalarBytes(f, v).Some?
    && match f.ltype
       case StringType => |v.b| < TWO_32
       case BytesType | FixedBytesType => |v.b| < TWO_32 - SIZE_BYTES
       case SubmessageType(fields) => SoundMessage(fields, v.slots)
       case _ => true
  }

  ghost predicate SoundSlot(f: Field, s: Slot)
    decreases f, 1
  {
    match f.htype
    case Required => s.Single? && Sound(f, s.v)
    case Optional => s.Maybe? && (s.has ==> Sound(f, s.v))
    case OneOf(_) => s.Choice? && (s.value.Some? ==> Sound(f, s.value.value))
    case Repeated(size) =>
      && s.Many? && |s.items| <= size && (forall i :: 0 <= i < |s.items| ==> Sound(f, s.items[i]))
      && (Packable(f.ltype) ==> PackedBytes(f, s.items, |s.items|).Some?
                                && |PackedBytes(f, s.items, |s.items|).value| < TWO_32)
  }

  ghost predicate SoundMessage(fields: seq<Field>, slots: seq<Slot>)
    decreases fields
  {
    && |slots| == |fields|
    && (forall i :: 0 <= i < |fields| ==> SoundSlot(fields[i], slots[i]))
    && OneChosen(fields, slots)
    && MessageBytes(fields, slots, |fields|).Some? && |MessageBytes(fields, slots, |fields|).value| < TWO_32
  }

  lemma {:induction false} CanonGood(f: Field, v: Value)
    requires GoodField(f) && Sound(f, v)
    ensures Good(f, CanonValue(f, v))
    decreases f, 0
  {
    SameScalar(f, v);
    if f.ltype.SubmessageType? {
      CanonGoodMessage(f.ltype.fields, v.slots);
      GoodTyped(f.ltype.fields, Canon(f.ltype.fields, v.slots));
    }
  }

  lemma CanonGoodSlot(f: Field, s: Slot)
    requires GoodField(f) && SoundSlot(f, s)
    ensures GoodSlot(f, CanonSlot(f, s))
    decreases f, 1
  {
    hide Sound, Good, CanonValue, ScalarBytes, PackedBytes;
    match s {
      case Single(v) => CanonGood(f, v);
      case Maybe(has, v) => if has { CanonGood(f, v); }
      case Choice(v) => if v.Some? { CanonGood(f, v.value); }
      case Many(items) =>
        SamePacked(f, items, |items|);
        forall i | 0 <= i < |items| ensures Good(f, CanonItems(f, items)[i]) { CanonGood(f, items[i]); }
    }
  }

  lemma {:induction false} CanonGoodMessage(fields: seq<Field>, slots: seq<Slot>)
    requires GoodFields(fields) && SoundMessage(fields, slots)
    ensures GoodMessage(fields, Canon(fields, slots))
    decreases fields
  {
    hide SoundSlot, GoodSlot, MessageBytes, GoodField;
    SameMessage(fields, slots, |fields|);
    forall i | 0 <= i < |fields| ensures GoodSlot(fields[i], Canon(fields, slots)[i]) {
      CanonGoodSlot(fields[i], slots[i]);
    }
  }

  /** Good messages are well typed, unset parts included. */
  lemma {:induction false} GoodTyped(fields: seq<Field>, slots: seq<Slot>)
    requires GoodFields(fields) && GoodMessage(fields, slots)
    ensures TypedMessage(fields, slots)
  {
    hide Good, Typed, MessageBytes, GoodField;
    forall i | 0 <= i < |fields| ensures TypedSlot(fields[i], slots[i]) {
      GoodSlotTyped(fields[i], slots[i]);
    }
  }

  lemma GoodSlotTyped(f: Field, s: Slot)
    requires GoodField(f) && GoodSlot(f, s)
    ensures TypedSlot(f, s)
  {
    hide ScalarBytes, PackedBytes, MessageBytes, GoodField;
    DefaultTyped(f);
  }

  lemma {:induction false} SameTermination(fields: seq<Field>, slots: seq<Slot>)
    requires |slots| == |fields|
    ensures AllTerminated(fields, Canon(fields, slots)) <==> AllTerminated(fields, slots)
    decreases fields
  {
    hide TerminatedSlot, CanonSlot;
    forall i | 0 <= i < |fields|
      ensures TerminatedSlot(fields[i], CanonSlot(fields[i], slots[i])) <==> TerminatedSlot(fields[i], slots[i])
    {
      SameSlotTermination(fields[i], slots[i]);
    }
  }

  lemma SameSlotTermination(f: Field, s: Slot)
    ensures TerminatedSlot(f, CanonSlot(f, s)) <==> TerminatedSlot(f, s)
    decreases f, 1
  {
    hide Terminated, CanonValue;
    match s {
      case Single(v) => SameValueTermination(f, v);
      case Maybe(has, v) => if has { SameValueTermination(f, v); }
      case Choice(v) => if v.Some? { SameValueTermination(f, v.value); }
      case Many(items) =>
        forall i | 0 <= i < |items| ensures Terminated(f, CanonItems(f, items)[i]) <==> Terminated(f, items[i]) {
          SameValueTermination(f, items[i]);
        }
    }
  }

  lemma SameValueTermination(f: Field, v: Value)
    ensures Terminated(f, CanonValue(f, v)) <==> Terminated(f, v)
    decreases f, 0
  {
    if f.ltype.SubmessageType? && v.Msg? && |v.slots| == |f.ltype.fields| {
      SameTermination(f.ltype.fields, v.slots);
    }
  }

  // ---------- the theorems ----------

  /** pb_get_encoded_size: the sizing pass gives the length of the encoding. */
  method GetEncodedSize(fields: seq<Field>, slots: seq<Slot>) returns (ok: bool, size: nat)
    requires TypedMessage(fields, slots)
    ensures ok <==> MessageBytes(fields, slots, |fields|).Some?
    ensures ok ==> size == |MessageBytes(fields, slots, |fields|).value|
  {
    var stream := new NanopbEncode.OStream.Sizing();
    ok := stream.Encode(fields, slots);
    size := stream.bytesWritten;
  }

  /** Encoding into a buffer succeeds iff the sizing pass does and its size fits, and writes exactly that many bytes. */
  method EncodeIntoBuffer(fields: seq<Field>, slots: seq<Slot>, capacity: nat)
    returns (sized: bool, size: nat, ok: bool, buffer: Bytes)
    requires TypedMessage(fields, slots)
    ensures sized ==> MessageBytes(fields, slots, |fields|).Some?
                      && size == |MessageBytes(fields, slots, |fields|).value|
    ensures sized <==> MessageBytes(fields, slots, |fields|).Some?
    ensures ok <==> sized && size <= capacity
    ensures ok ==> |buffer| == size && MessageBytes(fields, slots, |fields|) == Some(buffer)
    ensures |buffer| <= capacity
  {
    sized, size := GetEncodedSize(fields, slots);
    var stream := new NanopbEncode.OStream.FromBuffer(capacity);
    ok := stream.Encode(fields, slots);
    buffer := stream.out;
    if ok { assert [] + MessageBytes(fields, slots, |fields|).value == MessageBytes(fields, slots, |fields|).value; }
  }

  /**
   Decoding what was encoded gives the message back, every set field and defaults
   elsewhere, exactly if every string that is set is terminated: the encoder also
   takes a string that fills its array, and the decoder refuses what it wrote.
   */
  method EncodeThenDecode(fields: seq<Field>, slots: seq<Slot>, capacity: nat, garbage: seq<Slot>)
    returns (encoded: bool, decoded: bool, back: seq<Slot>)
    requires GoodFields(fields) && TypedMessage(fields, slots) && TypedMessage(fields, garbage)
    requires SoundMessage(fields, slots)
    ensures encoded <==> |MessageBytes(fields, slots, |fields|).value| <= capacity
    ensures encoded ==> (decoded <==> AllTerminated(fields, slots)) && (decoded ==> back == Canon(fields, slots))
  {
    hide MessageBytes, GoodMessage, SoundMessage, TypedMessage, GoodFields, Canon, AllTerminated;
    var sized, size, ok, buffer := EncodeIntoBuffer(fields, slots, capacity);
    SoundEncodes(fields, slots);
    encoded, decoded, back := ok, false, garbage;
    if encoded {
      CanonGoodMessage(fields, slots);
      SameMessage(fields, slots, |fields|);
      SameTermination(fields, slots);
      var stream := new NanopbDecode.IStream(buffer);
      decoded, back := stream.Decode(fields, garbage, Canon(fields, slots));
    }
  }

  lemma SoundEncodes(fields: seq<Field>, slots: seq<Slot>)
    requires SoundMessage(fields, slots)
    ensures |slots| == |fields| && MessageBytes(fields, slots, |fields|).Some?
  {
  }
}
