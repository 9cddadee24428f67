/** Messages behind a descriptor, and the bytes they stand for (nanopb: pb.h, pb_encode.c, and the default
    values of pb_decode.c). */
module ProtoTypes {
  import opened Keys
  import opened Coding

  /** How the data of a field is laid out; sizes are those of the C field. */
  datatype DataType =
    | SignedVarint(size: nat)
    | UnsignedVarint(size: nat)
    | ZigZag(size: nat)
    | Fixed32
    | Fixed64
    | Blob(capacity: nat)
    | Text(size: nat)
    | FixedBlob(size: nat)
    | Submessage(desc: Descriptor)

  /** `Optional(false)` is a field without a has_ flag, left out when it looks like zero. Members of a oneof share a
      group. */
  datatype Rule = Required | Optional(flag: bool) | Repeated(max: nat) | OneOf(group: nat)

  datatype Field = Field(tag: nat, rule: Rule, kind: DataType, default: Option<Value>)

  datatype Descriptor = Descriptor(fields: seq<Field>)

  datatype Value = Number(n: int) | Data(data: Bytes) | Record(slots: seq<Slot>)

  datatype Slot = One(value: Value) | Maybe(present: bool, value: Value) | Many(values: seq<Value>) | Union(chosen: Option<Value>)

  // Numbers.

  function HalfRange(size: nat): nat {
    if size == 1 then 0x80 else if size == 2 then 0x8000 else if size == 4 then 0x8000_0000 else 0x8000_0000_0000_0000
  }

  predicate Width(size: nat) {
    size == 1 || size == 2 || size == 4 || size == 8
  }

  function ZigZagged(n: int): nat {
    if n < 0 then -2 * n - 1 else 2 * n
  }

  function AsUnsigned(n: int): nat {
    n % TWO64
  }

  // Types and ranges.

  /** A value has the shape its field calls for. */
  predicate HasShape(kind: DataType, v: Value)
    decreases v
  {
    match kind
    case SignedVarint(size) => Width(size) && v.Number? && 0 <= v.n + HalfRange(size) < 2 * HalfRange(size)
    case UnsignedVarint(size) => Width(size) && v.Number? && 0 <= v.n < 2 * HalfRange(size)
    case ZigZag(size) => Width(size) && v.Number? && 0 <= v.n + HalfRange(size) < 2 * HalfRange(size)
    case Fixed32 => v.Number? && 0 <= v.n < TWO32
    case Fixed64 => v.Number? && 0 <= v.n < TWO64
    case Blob(_) => v.Data? && |v.data| < TWO32
    case Text(size) => v.Data? && |v.data| < size < TWO32 && 0 !in v.data
    case FixedBlob(size) => v.Data? && |v.data| == size < TWO32
    case Submessage(desc) => v.Record? && AllShaped(desc.fields, v.slots)
  }

  predicate AllShaped(fields: seq<Field>, slots: seq<Slot>)
    decreases slots
  {
    |slots| == |fields| && forall i :: 0 <= i < |fields| ==> SlotShaped(fields[i], slots[i])
  }

  predicate SlotShaped(f: Field, s: Slot)
    decreases s
  {
    match f.rule
    case Required => s.One? && HasShape(f.kind, s.value)
    case Optional(flag) => if flag then s.Maybe? && HasShape(f.kind, s.value) else s.One? && HasShape(f.kind, s.value)
    case Repeated(_) => s.Many? && forall i :: 0 <= i < |s.values| ==> HasShape(f.kind, s.values[i])
    case OneOf(_) => s.Union? && (s.chosen.Some? ==> HasShape(f.kind, s.chosen.value))
  }

  // Defaults.

  function Zeros(n: nat): Bytes {
    seq(n, _ => 0)
  }

  function ZeroOf(kind: DataType): Value
    decreases kind
  {
    match kind
    case Blob(_) => Data([])
    case Text(_) => Data([])
    case FixedBlob(size) => Data(Zeros(size))
    case Submessage(desc) => Record(Defaults(desc.fields))
    case _ => Number(0)
  }

  /** What a field holds before anything is decoded into it. */
  function DefaultOf(f: Field): Value
    decreases f, 0
  {
    if f.kind.Submessage? || f.default.None? then ZeroOf(f.kind) else f.default.value
  }

  function DefaultSlot(f: Field): Slot
    decreases f, 1
  {
    match f.rule
    case Required => One(DefaultOf(f))
    case Optional(flag) => if flag then Maybe(false, DefaultOf(f)) else One(DefaultOf(f))
    case Repeated(_) => Many([])
    case OneOf(_) => Union(None)
  }

  function Defaults(fields: seq<Field>): seq<Slot>
    decreases fields
  {
    seq(|fields|, i requires 0 <= i < |fields| => DefaultSlot(fields[i]))
  }

  /** What the test below says of memory that is all zeros. Of fixed-length bytes it looks at the length only. */
  predicate ZeroMemory(kind: DataType)
    decreases kind
  {
    match kind
    case FixedBlob(size) => size == 0
    case Submessage(desc) => forall i :: 0 <= i < |desc.fields| ==> ZeroMemory(desc.fields[i].kind)
    case _ => true
  }

  /** pb_check_proto3_default_value: whether a value is taken for zero. Of a repeated field only the first element's
      memory is looked at, and counts, has_ flags and the choice of a oneof are not looked at: where no value is held, the
      memory is all zeros. */
  predicate LooksZero(kind: DataType, v: Value)
    requires HasShape(kind, v)
    decreases v
  {
    match kind
    case Blob(_) => v.data == []
    case Text(_) => v.data == []
    case FixedBlob(size) => size == 0
    case Submessage(desc) =>
      assert AllShaped(desc.fields, v.slots);
      forall i :: 0 <= i < |desc.fields| ==> SlotLooksZero(desc.fields[i], v.slots[i])
    case _ => v.n == 0
  }

  predicate SlotLooksZero(f: Field, s: Slot)
    requires SlotShaped(f, s)
    decreases s
  {
    match s
    case One(v) => LooksZero(f.kind, v)
    case Maybe(_, v) => LooksZero(f.kind, v)
    case Many(vs) => if vs == [] then ZeroMemory(f.kind) else LooksZero(f.kind, vs[0])
    case Union(chosen) => if chosen.None? then ZeroMemory(f.kind) else LooksZero(f.kind, chosen.value)
  }

  // The wire format.

  function WireType(kind: DataType): nat {
    match kind
    case SignedVarint(_) => 0
    case UnsignedVarint(_) => 0
    case ZigZag(_) => 0
    case Fixed32 => 5
    case Fixed64 => 1
    case _ => 2
  }

  predicate Packable(kind: DataType) {
    WireType(kind) != 2
  }

  function TagBytes(tag: nat, wire: nat): Bytes {
    Varint(tag * 8 + wire)
  }

  function EncodeValue(kind: DataType, v: Value): Bytes
    requires HasShape(kind, v)
    decreases v, 0
  {
    match kind
    case SignedVarint(_) => Varint(AsUnsigned(v.n))
    case UnsignedVarint(_) => Varint(v.n)
    case ZigZag(_) => Varint(ZigZagged(v.n))
    case Fixed32 => Fixed(v.n, 4)
    case Fixed64 => Fixed(v.n, 8)
    case Submessage(desc) =>
      var body := EncodeAll(desc.fields, v.slots);
      Varint(|body|) + body
    case _ => Varint(|v.data|) + v.data
  }

  function EncodeItems(kind: DataType, vs: seq<Value>, prefix: Bytes): Bytes
    requires forall i :: 0 <= i < |vs| ==> HasShape(kind, vs[i])
    decreases vs, 0
  {
    if vs == [] then [] else
    EncodeItems(kind, vs[..|vs| - 1], prefix) + prefix + EncodeValue(kind, vs[|vs| - 1])
  }

  lemma EncodeItemsLast(kind: DataType, vs: seq<Value>, prefix: Bytes)
    requires vs != [] && forall i :: 0 <= i < |vs| ==> HasShape(kind, vs[i])
    ensures EncodeItems(kind, vs, prefix) == EncodeItems(kind, vs[..|vs| - 1], prefix) + prefix + EncodeValue(kind, vs[|vs| - 1])
  {
    hide EncodeValue, HasShape;
  }

  lemma NoItems(kind: DataType, vs: seq<Value>, prefix: Bytes)
    ensures EncodeItems(kind, [], prefix) == [] && EncodeItems(kind, vs[..0], prefix) == []
  {
  }

  function EncodeArray(f: Field, vs: seq<Value>): Bytes
    requires forall i :: 0 <= i < |vs| ==> HasShape(f.kind, vs[i])
    decreases vs, 1
  {
    if vs == [] then []
    else if Packable(f.kind) then
      var body := EncodeItems(f.kind, vs, []);
      TagBytes(f.tag, 2) + Varint(|body|) + body
    else EncodeItems(f.kind, vs, TagBytes(f.tag, WireType(f.kind)))
  }

  /** Whether a field is written at all. */
  predicate Emitted(f: Field, s: Slot)
    requires SlotShaped(f, s)
  {
    match s
    case One(v) => f.rule.Required? || !LooksZero(f.kind, v)
    case Maybe(present, _) => present
    case Many(vs) => vs != []
    case Union(chosen) => chosen.Some?
  }

  function EncodeSlot(f: Field, s: Slot): Bytes
    requires SlotShaped(f, s)
    decreases s
  {
    match s
    case One(v) => if Emitted(f, s) then EncodeTagged(f, v) else []
    case Maybe(present, v) => if present then EncodeTagged(f, v) else []
    case Many(vs) => EncodeArray(f, vs)
    case Union(chosen) => if chosen.Some? then EncodeTagged(f, chosen.value) else []
  }

  function EncodeTagged(f: Field, v: Value): Bytes
    requires HasShape(f.kind, v)
    decreases v, 1
  {
    TagBytes(f.tag, WireType(f.kind)) + EncodeValue(f.kind, v)
  }

  function EncodeAll(fields: seq<Field>, slots: seq<Slot>): Bytes
    requires AllShaped(fields, slots)
    decreases slots
  {
    if slots == [] then [] else
    var n := |slots| - 1;
    EncodeAll(fields[..n], slots[..n]) + EncodeSlot(fields[n], slots[n])
  }

  // What a descriptor and a message must keep to.

  function RequiredBefore(fields: seq<Field>, i: nat): nat
    requires i <= |fields|
  {
    if i == 0 then 0 else RequiredBefore(fields, i - 1) + if fields[i - 1].rule.Required? then 1 else 0
  }

  lemma {:induction false} RequiredGrows(fields: seq<Field>, i: nat, j: nat)
    requires i <= j <= |fields|
    ensures RequiredBefore(fields, i) <= RequiredBefore(fields, j)
    decreases j - i
  {
    if i < j {
      RequiredGrows(fields, i, j - 1);
    }
  }

  /** Tags differ and fit 29 bits; the number of required fields is one the bitmap check is defined for. */
  predicate DescriptorOk(fields: seq<Field>)
    decreases fields
  {
    && (forall i :: 0 <= i < |fields| ==> FieldOk(fields[i]))
    && (forall i, j :: 0 <= i < j < |fields| ==> fields[i].tag != fields[j].tag)
    && var n := RequiredBefore(fields, |fields|);
       n == 0 || (n < 64 && n % 32 != 0)
  }

  predicate FieldOk(f: Field)
    decreases f
  {
    && 1 <= f.tag < 0x2000_0000
    && (f.kind.Submessage? ==> DescriptorOk(f.kind.desc.fields))
  }

  /** Byte strings, arrays and submessages stay within their room and 32 bits; one member of a oneof at most is chosen. */
  predicate InRange(kind: DataType, v: Value)
    requires HasShape(kind, v)
    decreases v
  {
    match kind
    case Blob(capacity) => |v.data| <= capacity
    case Submessage(desc) => AllInRange(desc.fields, v.slots) && |EncodeAll(desc.fields, v.slots)| < TWO32
    case _ => true
  }

  predicate AllInRange(fields: seq<Field>, slots: seq<Slot>)
    requires AllShaped(fields, slots)
    decreases slots
  {
    && (forall i :: 0 <= i < |fields| ==> SlotInRange(fields[i], slots[i]))
    && forall i, j :: 0 <= i < j < |fields| && fields[i].rule.OneOf? && fields[j].rule == fields[i].rule ==>
         slots[i] == Union(None) || slots[j] == Union(None)
  }

  predicate SlotInRange(f: Field, s: Slot)
    requires SlotShaped(f, s)
    decreases s
  {
    match s
    case One(v) => Emitted(f, s) ==> InRange(f.kind, v)
    case Maybe(present, v) => present ==> InRange(f.kind, v)
    case Union(chosen) => chosen.Some? ==> InRange(f.kind, chosen.value)
    case Many(vs) =>
      && f.rule.Repeated? && |vs| <= f.rule.max && (Packable(f.kind) ==> |EncodeItems(f.kind, vs, [])| < TWO32)
      && forall i :: 0 <= i < |vs| ==> InRange(f.kind, vs[i])
  }

  // What decoding gives back: what was not written is at its default.

  function Reset(kind: DataType, v: Value): Value
    requires HasShape(kind, v)
    decreases v
  {
    if kind.Submessage? then Record(ResetAll(kind.desc.fields, v.slots)) else v
  }

  function ResetSlot(f: Field, s: Slot): Slot
    requires SlotShaped(f, s)
    decreases s
  {
    match s
    case One(v) => if Emitted(f, s) then One(Reset(f.kind, v)) else DefaultSlot(f)
    case Maybe(present, v) => if present then Maybe(true, Reset(f.kind, v)) else DefaultSlot(f)
    case Many(vs) => Many(seq(|vs|, i requires 0 <= i < |vs| => Reset(f.kind, vs[i])))
    case Union(chosen) => if chosen.Some? then Union(Some(Reset(f.kind, chosen.value))) else DefaultSlot(f)
  }

  function ResetAll(fields: seq<Field>, slots: seq<Slot>): seq<Slot>
    requires AllShaped(fields, slots)
    decreases slots
  {
    seq(|slots|, i requires 0 <= i < |slots| => ResetSlot(fields[i], slots[i]))
  }
}
