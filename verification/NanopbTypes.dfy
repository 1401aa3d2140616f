/**
 nanopb's field descriptors and message structs, abstractly, and the bytes a message
 stands for (pb.h, pb_encode.c). A struct is one slot for each field of its descriptor.
 Fields are static; the build uses 32-bit size fields (PB_FIELD_32BIT).
 */
module NanopbTypes {
  import opened Wrappers
  import opened Keys
  import opened Coding

  datatype LType =
    | VarintType   // int32, int64, bool, enum
    | UVarintType
    | SVarintType
    | Fixed32Type
    | Fixed64Type
    | BytesType
    | StringType
    | SubmessageType(fields: seq<Field>)
    | FixedBytesType

  datatype HType =
    | Required
    | Optional
    | Repeated(arraySize: nat)
    // members of one union share a `which` field
    | OneOf(union: nat)

  /** `dataSize` is the size of one item in the struct; `initial` the default of a field that is not a message. */
  datatype Field = Field(tag: nat, ltype: LType, htype: HType, dataSize: nat, initial: Value)

  datatype Value = Num(n: int) | Blob(b: Bytes) | Msg(slots: seq<Slot>)

  datatype Slot =
    | Single(v: Value)
    | Maybe(has: bool, v: Value)
    | Many(items: seq<Value>)
    // the member of a union; None when the union holds another member or nothing
    | Choice(value: Option<Value>)

  // ---------- the encoding ----------

  const WT_VARINT: nat := 0
  const WT_64BIT: nat := 1
  const WT_STRING: nat := 2
  const WT_32BIT: nat := 5

  function WireType(t: LType): nat {
    match t
    case VarintType | UVarintType | SVarintType => WT_VARINT
    case Fixed32Type => WT_32BIT
    case Fixed64Type => WT_64BIT
    case _ => WT_STRING
  }

  predicate Packable(t: LType) {
    t.VarintType? || t.UVarintType? || t.SVarintType? || t.Fixed32Type? || t.Fixed64Type?
  }

  predicate IntSize(size: nat) { size == 1 || size == 2 || size == 4 || size == 8 }

  /** Two's complement in 64 bits. */
  function ToUnsigned(n: int): nat { n % TWO_64 }

  /** Small magnitudes become small numbers: 0, -1, 1, -2, ... */
  function ZigZag(n: int): int { if n < 0 then -2 * n - 1 else 2 * n }

  function TagBytes(wireType: nat, tag: nat): Bytes { Varint(tag * 8 + wireType) }

  /** Bytes in front of the data of a length-prefixed bytes field in a struct. */
  const SIZE_BYTES: nat := 4

  /** A value without its tag; None where the encoder reports an error. */
  function ScalarBytes(f: Field, v: Value): Option<Bytes>
    decreases f, 0, 0
  {
    match f.ltype
    case VarintType => if IntSize(f.dataSize) && v.Num? then Some(Varint(ToUnsigned(v.n))) else None
    case UVarintType => if IntSize(f.dataSize) && v.Num? && v.n >= 0 then Some(Varint(v.n)) else None
    case SVarintType => if IntSize(f.dataSize) && v.Num? then Some(Varint(ZigZag(v.n))) else None
    case Fixed32Type => if v.Num? && v.n >= 0 then Some(Fixed32(v.n)) else None
    case Fixed64Type => if v.Num? && v.n >= 0 then Some(Fixed64(v.n)) else None
    case BytesType => if v.Blob? && |v.b| + SIZE_BYTES <= f.dataSize then Some(Prefixed(v.b)) else None
    case StringType => if v.Blob? then Some(Prefixed(v.b)) else None
    case FixedBytesType => if v.Blob? then Some(Prefixed(v.b)) else None
    case SubmessageType(fields) =>
      if v.Msg? && |v.slots| == |fields| then
        Sized(MessageBytes(fields, v.slots, |fields|))
      else None
  }

  /** The first `k` items, untagged. */
  function PackedBytes(f: Field, items: seq<Value>, k: nat): Option<Bytes>
    requires k <= |items|
    decreases f, 2, k
  {
    if k == 0 then Some([]) else Join(PackedBytes(f, items, k - 1), ScalarBytes(f, items[k - 1]))
  }

  /** The first `k` items, each with its tag. */
  function UnpackedBytes(f: Field, items: seq<Value>, k: nat): Option<Bytes>
    requires k <= |items|
    decreases f, 2, k
  {
    if k == 0 then Some([]) else Join(UnpackedBytes(f, items, k - 1), TaggedBytes(f, items[k - 1]))
  }

  /** One tag, then all items behind their total length. */
  function PackedField(f: Field, items: seq<Value>): Option<Bytes>
    decreases f, 2, |items| + 1
  {
    Join(Some(TagBytes(WT_STRING, f.tag)), Sized(PackedBytes(f, items, |items|)))
  }

  function Sized(b: Option<Bytes>): Option<Bytes> {
    if b.Some? then Some(Prefixed(b.value)) else None
  }

  function Join(a: Option<Bytes>, b: Option<Bytes>): Option<Bytes> {
    if a.Some? && b.Some? then Some(a.value + b.value) else None
  }

  function TaggedBytes(f: Field, v: Value): Option<Bytes>
    decreases f, 1, 0
  {
    Join(Some(TagBytes(WireType(f.ltype), f.tag)), ScalarBytes(f, v))
  }

  function SlotBytes(f: Field, s: Slot): Option<Bytes>
    decreases f, 3, 0
  {
    match f.htype
    case Required => if s.Single? then TaggedBytes(f, s.v) else None
    case Optional => if s.Maybe? then (if s.has then TaggedBytes(f, s.v) else Some([])) else None
    case OneOf(_) => if s.Choice? then (if s.value.Some? then TaggedBytes(f, s.value.value) else Some([])) else None
    case Repeated(size) =>
      if !s.Many? then None
      else if |s.items| == 0 then Some([])
      else if |s.items| > size then None
      else if Packable(f.ltype) then
        PackedField(f, s.items)
      else UnpackedBytes(f, s.items, |s.items|)
  }

  /** The first `n` fields of a message. */
  function MessageBytes(fields: seq<Field>, slots: seq<Slot>, n: nat): Option<Bytes>
    requires n <= |fields| == |slots|
    decreases fields, n
  {
    if n == 0 then Some([]) else Join(MessageBytes(fields, slots, n - 1), SlotBytes(fields[n - 1], slots[n - 1]))
  }

  // ---------- what a struct can hold ----------

  predicate SignedFits(n: int, size: nat) {
    if size == 1 then -0x80 <= n < 0x80
    else if size == 2 then -0x8000 <= n < 0x8000
    else if size == 4 then -0x8000_0000 <= n < 0x8000_0000
    else -0x8000_0000_0000_0000 <= n < 0x8000_0000_0000_0000
  }

  predicate UnsignedFits(n: int, size: nat) {
    0 <= n < if size == 1 then 0x100 else if size == 2 then 0x1_0000 else if size == 4 then TWO_32 else TWO_64
  }

  /** Text up to its terminator, or the whole array if it has none. */
  predicate IsText(b: Bytes, size: nat) { |b| <= size && 0 !in b }

  ghost predicate Typed(f: Field, v: Value)
    decreases f, 0
  {
    match f.ltype
    case VarintType | SVarintType => v.Num? && SignedFits(v.n, f.dataSize)
    case UVarintType => v.Num? && UnsignedFits(v.n, f.dataSize)
    case Fixed32Type => v.Num? && 0 <= v.n < TWO_32
    case Fixed64Type => v.Num? && 0 <= v.n < TWO_64
    case BytesType => v.Blob?
    case StringType => v.Blob? && IsText(v.b, f.dataSize)
    case FixedBytesType => v.Blob? && |v.b| == f.dataSize
    case SubmessageType(fields) => v.Msg? && TypedMessage(fields, v.slots)
  }

  ghost predicate TypedSlot(f: Field, s: Slot)
    decreases f, 1
  {
    match f.htype
    case Required => s.Single? && Typed(f, s.v)
    case Optional => s.Maybe? && Typed(f, s.v)
    case OneOf(_) => s.Choice? && (s.value.Some? ==> Typed(f, s.value.value))
    case Repeated(_) => s.Many? && forall i :: 0 <= i < |s.items| ==> Typed(f, s.items[i])
  }

  ghost predicate TypedMessage(fields: seq<Field>, slots: seq<Slot>)
    decreases fields
  {
    |slots| == |fields| && forall i :: 0 <= i < |fields| ==> TypedSlot(fields[i], slots[i])
  }

  // ---------- descriptors as the generator makes them ----------

  ghost predicate GoodField(f: Field)
    decreases f
  {
    && 1 <= f.tag < 0x2000_0000
    && match f.ltype
       case SubmessageType(fields) => GoodFields(fields)
       case _ => Typed(f, f.initial)
  }

  ghost predicate GoodFields(fields: seq<Field>)
    decreases fields
  {
    && (forall i, j :: 0 <= i < j < |fields| ==> fields[i].tag != fields[j].tag)
    && (forall i :: 0 <= i < |fields| ==> GoodField(fields[i]))
  }

  // ---------- defaults ----------

  function DefaultValue(f: Field): Value
    decreases f, 0
  {
    match f.ltype
    case SubmessageType(fields) => Msg(Defaults(fields))
    case _ => f.initial
  }

  function DefaultSlot(f: Field): Slot
    decreases f, 1
  {
    match f.htype
    case Required => Single(DefaultValue(f))
    case Optional => Maybe(false, DefaultValue(f))
    case Repeated(_) => Many([])
    case OneOf(_) => Choice(None)
  }

  /** pb_message_set_to_defaults. */
  function Defaults(fields: seq<Field>): (r: seq<Slot>)
    ensures |r| == |fields|
    decreases fields
  {
    seq(|fields|, i requires 0 <= i < |fields| => DefaultSlot(fields[i]))
  }

  lemma {:induction false} DefaultsTyped(fields: seq<Field>)
    requires GoodFields(fields)
    ensures TypedMessage(fields, Defaults(fields))
    decreases fields
  {
    forall i | 0 <= i < |fields| ensures TypedSlot(fields[i], DefaultSlot(fields[i])) {
      DefaultTyped(fields[i]);
    }
  }

  lemma {:induction false} DefaultTyped(f: Field)
    requires GoodField(f)
    ensures Typed(f, DefaultValue(f)) && TypedSlot(f, DefaultSlot(f))
    decreases f
  {
    if f.ltype.SubmessageType? {
      DefaultsTyped(f.ltype.fields);
    }
  }

  // ---------- messages that can be read back ----------

  /** Every string in the value leaves room for its terminator: what the decoder asks for and the encoder does not. */
  ghost predicate Terminated(f: Field, v: Value)
    decreases f, 0
  {
    match f.ltype
    case StringType => v.Blob? && |v.b| < f.dataSize
    case SubmessageType(fields) => v.Msg? && AllTerminated(fields, v.slots)
    case _ => true
  }

  /** ... in what is set. */
  ghost predicate TerminatedSlot(f: Field, s: Slot)
    decreases f, 1
  {
    match s
    case Single(v) => Terminated(f, v)
    case Maybe(has, v) => has ==> Terminated(f, v)
    case Choice(v) => v.Some? ==> Terminated(f, v.value)
    case Many(items) => forall i :: 0 <= i < |items| ==> Terminated(f, items[i])
  }

  ghost predicate AllTerminated(fields: seq<Field>, slots: seq<Slot>)
    decreases fields
  {
    |slots| == |fields| && forall i :: 0 <= i < |fields| ==> TerminatedSlot(fields[i], slots[i])
  }

  /** The value is encodable and no part is 4 GB or longer. */
  ghost predicate Good(f: Field, v: Value)
    decreases f, 0
  {
    && Typed(f, v) && ScalarBytes(f, v).Some?
    && match f.ltype
       case StringType => |v.b| < TWO_32
       case BytesType | FixedBytesType => |v.b| < TWO_32 - SIZE_BYTES
       case SubmessageType(fields) => GoodMessage(fields, v.slots)
       case _ => true
  }

  /** ... and what is not set holds its default. */
  ghost predicate GoodSlot(f: Field, s: Slot)
    decreases f, 1
  {
    match f.htype
    case Required => s.Single? && Good(f, s.v)
    case Optional => s.Maybe? && if s.has then Good(f, s.v) else s.v == DefaultValue(f)
    case OneOf(_) => s.Choice? && (s.value.Some? ==> Good(f, s.value.value))
    case Repeated(size) =>
      && s.Many? && |s.items| <= size && (forall i :: 0 <= i < |s.items| ==> Good(f, s.items[i]))
      && (Packable(f.ltype) ==> PackedBytes(f, s.items, |s.items|).Some?
                                && |PackedBytes(f, s.items, |s.items|).value| < TWO_32)
  }

  ghost predicate GoodMessage(fields: seq<Field>, slots: seq<Slot>)
    decreases fields
  {
    && |slots| == |fields|
    && (forall i :: 0 <= i < |fields| ==> GoodSlot(fields[i], slots[i]))
    && OneChosen(fields, slots)
    && MessageBytes(fields, slots, |fields|).Some? && |MessageBytes(fields, slots, |fields|).value| < TWO_32
  }

  predicate SameUnion(f: Field, g: Field) { f.htype.OneOf? && g.htype.OneOf? && f.htype.union == g.htype.union }

  /** At most one member of a union is set. */
  predicate OneChosen(fields: seq<Field>, slots: seq<Slot>)
    requires |slots| == |fields|
  {
    forall i, j :: 0 <= i < |fields| && 0 <= j < |fields| && i != j && SameUnion(fields[i], fields[j])
                   && slots[i].Choice? && slots[i].value.Some? ==>
      slots[j] == Choice(None)
  }
}
