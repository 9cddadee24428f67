/** The encoder (nanopb: pb_encode.c): each submessage is measured first and then written, and what is written is
    what was measured. */
module ProtoEncoder {
  import opened Keys
  import opened Coding
  import opened ProtoTypes

  /** What the encoder can write: arrays and byte strings that keep to their room. */
  predicate Encodable(kind: DataType, v: Value)
    requires HasShape(kind, v)
    decreases v
  {
    match kind
    case Blob(capacity) => |v.data| <= capacity
    case Submessage(desc) => AllEncodable(desc.fields, v.slots)
    case _ => true
  }

  predicate AllEncodable(fields: seq<Field>, slots: seq<Slot>)
    requires AllShaped(fields, slots)
    decreases slots
  {
    forall i :: 0 <= i < |fields| ==> SlotEncodable(fields[i], slots[i])
  }

  predicate SlotEncodable(f: Field, s: Slot)
    requires SlotShaped(f, s)
    decreases s
  {
    match s
    case One(v) => Emitted(f, s) ==> Encodable(f.kind, v)
    case Maybe(present, v) => present ==> Encodable(f.kind, v)
    case Union(chosen) => chosen.Some? ==> Encodable(f.kind, chosen.value)
    case Many(vs) => f.rule.Repeated? && |vs| <= f.rule.max && forall i :: 0 <= i < |vs| ==> Encodable(f.kind, vs[i])
  }

  lemma {:induction false} InRangeEncodable(kind: DataType, v: Value)
    requires HasShape(kind, v) && InRange(kind, v)
    ensures Encodable(kind, v)
    decreases v, 0
  {
    if kind.Submessage? {
      AllInRangeEncodable(kind.desc.fields, v.slots);
    }
  }

  /** A message in range can be encoded. */
  lemma {:induction false} AllInRangeEncodable(fields: seq<Field>, slots: seq<Slot>)
    requires AllShaped(fields, slots) && AllInRange(fields, slots)
    ensures AllEncodable(fields, slots)
    decreases slots, 1
  {
    hide SlotShaped;
    forall i | 0 <= i < |fields| ensures SlotShaped(fields[i], slots[i]) && SlotEncodable(fields[i], slots[i]) {
      assert SlotInRange(fields[i], slots[i]);
      SlotInRangeEncodable(fields[i], slots[i]);
    }
  }

  lemma {:induction false} SlotInRangeEncodable(f: Field, s: Slot)
    requires SlotShaped(f, s) && SlotInRange(f, s)
    ensures SlotEncodable(f, s)
    decreases s, 0
  {
    hide HasShape, LooksZero;
    match s
    case One(v) =>
      if Emitted(f, s) {
        InRangeEncodable(f.kind, v);
      }
    case Maybe(present, v) =>
      if present {
        InRangeEncodable(f.kind, v);
      }
    case Union(chosen) =>
      if chosen.Some? {
        InRangeEncodable(f.kind, chosen.value);
      }
    case Many(vs) =>
      forall i | 0 <= i < |vs| ensures Encodable(f.kind, vs[i]) {
        InRangeEncodable(f.kind, vs[i]);
      }
  }

  /** An output stream: a buffer of limited size, or only a count of the bytes that would be written. */
  class OStream {
    const sizing: bool
    const maxSize: nat
    var out: Bytes
    var bytesWritten: nat

    constructor (sizing: bool, maxSize: nat)
      ensures this.sizing == sizing && this.maxSize == maxSize && out == [] && bytesWritten == 0
    {
      this.sizing, this.maxSize := sizing, maxSize;
      out, bytesWritten := [], 0;
    }

    predicate Room(n: nat)
      reads this
    {
      sizing || bytesWritten + n <= maxSize
    }

    method Write(b: Bytes) returns (ok: bool)
      requires Room(0)
      modifies this
      ensures Room(0)
      ensures ok == old(Room(|b|)) && (ok ==> Added(sizing, old(out), old(bytesWritten), out, bytesWritten, b))
    {
      if !sizing {
        if bytesWritten + |b| > maxSize {
          return false;
        }
        out := out + b;
      }
      bytesWritten := bytesWritten + |b|;
      return true;
    }
  }

  /** Exactly these bytes have been added to a stream. */
  ghost predicate Added(sizing: bool, out: Bytes, written: nat, out': Bytes, written': nat, b: Bytes) {
    written' == written + |b| && out' == if sizing then out else out + b
  }

  lemma AddedTwice(sizing: bool, o0: Bytes, n0: nat, o1: Bytes, n1: nat, o2: Bytes, n2: nat, a: Bytes, b: Bytes)
    requires Added(sizing, o0, n0, o1, n1, a) && Added(sizing, o1, n1, o2, n2, b)
    ensures Added(sizing, o0, n0, o2, n2, a + b)
  {
    assert !sizing ==> o0 + a + b == o0 + (a + b);
  }

  /** The bytes of a number, seven bits at a time; the last one has its top bit taken away again. */
  method VarintBuffer(value: Uint64) returns (buffer: Bytes)
    ensures buffer == Varint(value)
  {
    if value <= 0x7F {
      return [value];
    }
    hide Varint;
    var v := value;
    buffer := [];
    while v != 0
      invariant v != 0 ==> Varint(value) == buffer + Varint(v)
      invariant v == 0 ==> |buffer| > 0 && buffer[|buffer| - 1] >= 128
                           && Varint(value) == buffer[..|buffer| - 1] + [buffer[|buffer| - 1] - 128]
    {
      SevenBits(buffer, v);
      buffer := buffer + [v % 128 + 128];
      v := v / 128;
    }
    buffer := buffer[|buffer| - 1 := buffer[|buffer| - 1] - 128];
  }

  lemma SevenBits(buffer: Bytes, v: Uint64)
    ensures v >= 128 ==> buffer + Varint(v) == buffer + [v % 128 + 128] + Varint(v / 128)
    ensures v < 128 ==> buffer + Varint(v) == buffer + [v % 128] && (buffer + [v % 128 + 128])[..|buffer|] == buffer
  {
  }

  method EncodeVarint(stream: OStream, value: Uint64) returns (ok: bool)
    requires stream.Room(0)
    modifies stream
    ensures stream.Room(0)
    ensures ok == old(stream.Room(|Varint(value)|))
    ensures ok ==> Added(stream.sizing, old(stream.out), old(stream.bytesWritten), stream.out, stream.bytesWritten, Varint(value))
  {
    var buffer := VarintBuffer(value);
    ok := stream.Write(buffer);
  }

  method EncodeString(stream: OStream, data: Bytes) returns (ok: bool)
    requires |data| < TWO64
    requires stream.Room(0)
    modifies stream
    ensures stream.Room(0)
    ensures ok == old(stream.Room(|Varint(|data|) + data|))
    ensures ok ==> Added(stream.sizing, old(stream.out), old(stream.bytesWritten), stream.out, stream.bytesWritten, Varint(|data|) + data)
  {
    hide Varint;
    ok := EncodeVarint(stream, |data|);
    if ok {
      ghost var o, n := stream.out, stream.bytesWritten;
      ok := stream.Write(data);
      if ok {
        AddedTwice(stream.sizing, old(stream.out), old(stream.bytesWritten), o, n, stream.out, stream.bytesWritten, Varint(|data|), data);
      }
    }
  }

  method EncodeTag(stream: OStream, wire: nat, tag: nat) returns (ok: bool)
    requires tag < 0x2000_0000 && wire < 8
    requires stream.Room(0)
    modifies stream
    ensures stream.Room(0)
    ensures ok == old(stream.Room(|TagBytes(tag, wire)|))
    ensures ok ==> Added(stream.sizing, old(stream.out), old(stream.bytesWritten), stream.out, stream.bytesWritten, TagBytes(tag, wire))
  {
    ok := EncodeVarint(stream, tag * 8 + wire);
  }

  method EncodeNumber(stream: OStream, kind: DataType, v: Value) returns (ok: bool)
    requires Packable(kind) && HasShape(kind, v)
    requires stream.Room(0)
    modifies stream
    ensures stream.Room(0)
    ensures ok == old(stream.Room(|EncodeValue(kind, v)|))
    ensures ok ==> Added(stream.sizing, old(stream.out), old(stream.bytesWritten), stream.out, stream.bytesWritten, EncodeValue(kind, v))
  {
    hide Varint, Fixed;
    match kind
    case SignedVarint(_) => ok := EncodeVarint(stream, AsUnsigned(v.n));
    case UnsignedVarint(_) => ok := EncodeVarint(stream, v.n);
    case ZigZag(_) => ok := EncodeVarint(stream, ZigZagged(v.n));
    case Fixed32 => ok := stream.Write(Fixed(v.n, 4));
    case Fixed64 => ok := stream.Write(Fixed(v.n, 8));
  }

  /** The descriptors of a message, all the way down, have tags of 29 bits and sizes that can be measured. */
  predicate Measurable(kind: DataType, v: Value)
    requires HasShape(kind, v)
    decreases v
  {
    kind.Submessage? ==> AllMeasurable(kind.desc.fields, v.slots) && |EncodeAll(kind.desc.fields, v.slots)| < TWO64
  }

  predicate AllMeasurable(fields: seq<Field>, slots: seq<Slot>)
    requires AllShaped(fields, slots)
    decreases slots
  {
    forall i :: 0 <= i < |fields| ==> SlotMeasurable(fields[i], slots[i])
  }

  predicate SlotMeasurable(f: Field, s: Slot)
    requires SlotShaped(f, s)
    decreases s
  {
    && f.tag < 0x2000_0000
    && match s
       case One(v) => Emitted(f, s) ==> Measurable(f.kind, v)
       case Maybe(present, v) => present ==> Measurable(f.kind, v)
       case Union(chosen) => chosen.Some? ==> Measurable(f.kind, chosen.value)
       case Many(vs) =>
         (Packable(f.kind) ==> |EncodeItems(f.kind, vs, [])| < TWO64) && forall i :: 0 <= i < |vs| ==> Measurable(f.kind, vs[i])
  }

  lemma {:induction false} InRangeMeasurable(kind: DataType, v: Value)
    requires HasShape(kind, v) && InRange(kind, v) && (kind.Submessage? ==> DescriptorOk(kind.desc.fields))
    ensures Measurable(kind, v)
    decreases v, 0
  {
    hide EncodeAll, AllShaped, AllInRange, AllMeasurable, DescriptorOk;
    if kind.Submessage? {
      AllInRangeMeasurable(kind.desc.fields, v.slots);
    }
  }

  /** A message in range can be measured. */
  lemma {:induction false} AllInRangeMeasurable(fields: seq<Field>, slots: seq<Slot>)
    requires DescriptorOk(fields) && AllShaped(fields, slots) && AllInRange(fields, slots)
    ensures AllMeasurable(fields, slots)
    decreases slots, 1
  {
    hide SlotShaped;
    forall i | 0 <= i < |fields| ensures SlotShaped(fields[i], slots[i]) && SlotMeasurable(fields[i], slots[i]) {
      assert FieldOk(fields[i]) && SlotInRange(fields[i], slots[i]);
      SlotInRangeMeasurable(fields[i], slots[i]);
    }
  }

  lemma {:induction false} SlotInRangeMeasurable(f: Field, s: Slot)
    requires FieldOk(f) && SlotShaped(f, s) && SlotInRange(f, s)
    ensures SlotMeasurable(f, s)
    decreases s, 0
  {
    hide HasShape, LooksZero, InRange, Measurable, DescriptorOk;
    match s
    case One(v) =>
      if Emitted(f, s) {
        InRangeMeasurable(f.kind, v);
      }
    case Maybe(present, v) =>
      if present {
        InRangeMeasurable(f.kind, v);
      }
    case Union(chosen) =>
      if chosen.Some? {
        InRangeMeasurable(f.kind, chosen.value);
      }
    case Many(vs) =>
      forall i | 0 <= i < |vs| ensures Measurable(f.kind, vs[i]) {
        InRangeMeasurable(f.kind, vs[i]);
      }
  }

  // One part after another.

  lemma TaggedParts(stream: OStream, o0: Bytes, n0: nat, o1: Bytes, n1: nat, f: Field, v: Value)
    requires HasShape(f.kind, v)
    requires Added(stream.sizing, o0, n0, o1, n1, TagBytes(f.tag, WireType(f.kind)))
    requires Added(stream.sizing, o1, n1, stream.out, stream.bytesWritten, EncodeValue(f.kind, v))
    ensures Added(stream.sizing, o0, n0, stream.out, stream.bytesWritten, EncodeTagged(f, v))
  {
    hide TagBytes, EncodeValue, HasShape;
    AddedTwice(stream.sizing, o0, n0, o1, n1, stream.out, stream.bytesWritten, TagBytes(f.tag, WireType(f.kind)), EncodeValue(f.kind, v));
  }

  /** A value, of whatever kind. A submessage is measured with a stream that only counts, its size is written, and it
      is then written through a stream that has room for just that size. */
  method EncodeOne(stream: OStream, kind: DataType, v: Value) returns (ok: bool)
    requires HasShape(kind, v) && Measurable(kind, v)
    requires stream.Room(0)
    modifies stream
    ensures stream.Room(0)
    ensures ok == (Encodable(kind, v) && old(stream.Room(|EncodeValue(kind, v)|)))
    ensures ok ==> Added(stream.sizing, old(stream.out), old(stream.bytesWritten), stream.out, stream.bytesWritten, EncodeValue(kind, v))
    decreases v, 0
  {
    hide Varint, EncodeAll, AllEncodable, AllMeasurable, AllShaped;
    if Packable(kind) {
      ok := EncodeNumber(stream, kind, v);
    } else if kind.Submessage? {
      ok := EncodeSubmessage(stream, kind.desc.fields, v.slots);
    } else if kind.Blob? && |v.data| > kind.capacity {
      ok := false;
    } else {
      ok := EncodeString(stream, v.data);
    }
  }

  method EncodeSubmessage(stream: OStream, fields: seq<Field>, slots: seq<Slot>) returns (ok: bool)
    requires AllShaped(fields, slots) && AllMeasurable(fields, slots) && |EncodeAll(fields, slots)| < TWO64
    requires stream.Room(0)
    modifies stream
    ensures stream.Room(0)
    ensures var body := EncodeAll(fields, slots);
            && ok == (AllEncodable(fields, slots) && old(stream.Room(|Varint(|body|) + body|)))
            && (ok ==> Added(stream.sizing, old(stream.out), old(stream.bytesWritten), stream.out, stream.bytesWritten, Varint(|body|) + body))
    decreases slots, 4
  {
    hide Varint, EncodeAll, AllEncodable, AllMeasurable, AllShaped;
    ghost var body := EncodeAll(fields, slots);
    var measure := new OStream(true, 0);
    ok := EncodeMessage(measure, fields, slots);
    if !ok {
      return false;
    }
    var size := measure.bytesWritten;
    ok := EncodeVarint(stream, size);
    if !ok {
      return false;
    }
    ghost var o, n := stream.out, stream.bytesWritten;
    if stream.sizing {
      stream.bytesWritten := stream.bytesWritten + size;
    } else {
      if stream.bytesWritten + size > stream.maxSize {
        return false;
      }
      var substream := new OStream(false, size);
      ok := EncodeMessage(substream, fields, slots);
      stream.out := stream.out + substream.out;
      stream.bytesWritten := stream.bytesWritten + substream.bytesWritten;
      // The size never changes between measuring and writing.
      assert ok && substream.bytesWritten == size;
      assert [] + body == body;
    }
    AddedTwice(stream.sizing, old(stream.out), old(stream.bytesWritten), o, n, stream.out, stream.bytesWritten, Varint(|body|), body);
  }

  method EncodeTaggedField(stream: OStream, f: Field, v: Value) returns (ok: bool)
    requires f.tag < 0x2000_0000 && HasShape(f.kind, v) && Measurable(f.kind, v)
    requires stream.Room(0)
    modifies stream
    ensures stream.Room(0)
    ensures ok == (Encodable(f.kind, v) && old(stream.Room(|EncodeTagged(f, v)|)))
    ensures ok ==> Added(stream.sizing, old(stream.out), old(stream.bytesWritten), stream.out, stream.bytesWritten, EncodeTagged(f, v))
    decreases v, 1
  {
    hide TagBytes, EncodeValue, HasShape, Encodable, Measurable;
    ok := EncodeTag(stream, WireType(f.kind), f.tag);
    if ok {
      ghost var o, n := stream.out, stream.bytesWritten;
      ok := EncodeOne(stream, f.kind, v);
      if ok {
        TaggedParts(stream, old(stream.out), old(stream.bytesWritten), o, n, f, v);
      }
    }
  }

  lemma {:induction false} ItemsPrefix(kind: DataType, vs: seq<Value>, prefix: Bytes, i: nat)
    requires i <= |vs| && forall k :: 0 <= k < |vs| ==> HasShape(kind, vs[k])
    ensures |EncodeItems(kind, vs[..i], prefix)| <= |EncodeItems(kind, vs, prefix)|
    decreases |vs|
  {
    hide EncodeValue, HasShape;
    if i < |vs| {
      ItemsPrefix(kind, vs[..|vs| - 1], prefix, i);
      assert vs[..|vs| - 1][..i] == vs[..i];
    } else {
      assert vs[..i] == vs;
    }
  }

  lemma ItemsNext(kind: DataType, vs: seq<Value>, prefix: Bytes, i: nat)
    requires i < |vs| && forall k :: 0 <= k < |vs| ==> HasShape(kind, vs[k])
    ensures EncodeItems(kind, vs[..i + 1], prefix) == EncodeItems(kind, vs[..i], prefix) + (prefix + EncodeValue(kind, vs[i]))
    ensures |EncodeItems(kind, vs[..i + 1], prefix)| <= |EncodeItems(kind, vs, prefix)|
  {
    hide EncodeValue, HasShape, EncodeItems;
    var some := vs[..i + 1];
    assert some[..i] == vs[..i] && some[i] == vs[i];
    EncodeItemsLast(kind, some, prefix);
    ItemsPrefix(kind, vs, prefix, i + 1);
    Regroup(EncodeItems(kind, vs[..i], prefix), prefix, EncodeValue(kind, vs[i]));
  }

  lemma {:induction false} FixedItems(kind: DataType, vs: seq<Value>)
    requires kind.Fixed32? || kind.Fixed64?
    requires forall k :: 0 <= k < |vs| ==> HasShape(kind, vs[k])
    ensures |EncodeItems(kind, vs, [])| == (if kind.Fixed32? then 4 else 8) * |vs|
  {
    hide HasShape, Fixed;
    if vs != [] {
      FixedItems(kind, vs[..|vs| - 1]);
    }
  }

  // The numbers of a packed array.
  method EncodeNumbers(stream: OStream, kind: DataType, vs: seq<Value>) returns (ok: bool)
    requires Packable(kind) && forall k :: 0 <= k < |vs| ==> HasShape(kind, vs[k])
    requires stream.Room(0)
    modifies stream
    ensures stream.Room(0)
    ensures ok == old(stream.Room(|EncodeItems(kind, vs, [])|))
    ensures ok ==> Added(stream.sizing, old(stream.out), old(stream.bytesWritten), stream.out, stream.bytesWritten, EncodeItems(kind, vs, []))
  {
    hide EncodeItems, EncodeValue, HasShape;
    NoItems(kind, vs, []);
    for i := 0 to |vs|
      invariant Added(stream.sizing, old(stream.out), old(stream.bytesWritten), stream.out, stream.bytesWritten, EncodeItems(kind, vs[..i], []))
      invariant old(stream.Room(|EncodeItems(kind, vs[..i], [])|))
    {
      ghost var o, n := stream.out, stream.bytesWritten;
      ItemsNext(kind, vs, [], i);
      assert [] + EncodeValue(kind, vs[i]) == EncodeValue(kind, vs[i]);
      ok := EncodeNumber(stream, kind, vs[i]);
      if !ok {
        return false;
      }
      AddedTwice(stream.sizing, old(stream.out), old(stream.bytesWritten), o, n, stream.out, stream.bytesWritten,
                 EncodeItems(kind, vs[..i], []), EncodeValue(kind, vs[i]));
    }
    assert vs[..|vs|] == vs;
    return true;
  }

  /** encode_array: numbers are packed, their size first; other elements are each written like a field of their own. */
  method EncodeArrayField(stream: OStream, f: Field, vs: seq<Value>) returns (ok: bool)
    requires f.rule.Repeated? && SlotShaped(f, Many(vs)) && SlotMeasurable(f, Many(vs))
    requires stream.Room(0)
    modifies stream
    ensures stream.Room(0)
    ensures ok == (SlotEncodable(f, Many(vs)) && old(stream.Room(|EncodeArray(f, vs)|)))
    ensures ok ==> Added(stream.sizing, old(stream.out), old(stream.bytesWritten), stream.out, stream.bytesWritten, EncodeArray(f, vs))
    decreases vs, 2
  {
    if |vs| == 0 {
      return true;
    }
    if |vs| > f.rule.max {
      return false;
    }
    if Packable(f.kind) {
      ok := EncodePacked(stream, f, vs);
    } else {
      ok := EncodeElements(stream, f, vs);
    }
  }

  method EncodePacked(stream: OStream, f: Field, vs: seq<Value>) returns (ok: bool)
    requires f.tag < 0x2000_0000 && Packable(f.kind) && vs != []
    requires forall k :: 0 <= k < |vs| ==> HasShape(f.kind, vs[k])
    requires |EncodeItems(f.kind, vs, [])| < TWO64
    requires stream.Room(0)
    modifies stream
    ensures stream.Room(0)
    ensures ok == old(stream.Room(|EncodeArray(f, vs)|))
    ensures ok ==> Added(stream.sizing, old(stream.out), old(stream.bytesWritten), stream.out, stream.bytesWritten, EncodeArray(f, vs))
  {
    hide EncodeItems, EncodeValue, HasShape, TagBytes, Varint;
    ghost var body, tag := EncodeItems(f.kind, vs, []), TagBytes(f.tag, 2);
    ok := EncodeTag(stream, 2, f.tag);
    if !ok {
      return false;
    }
    ghost var o1, n1 := stream.out, stream.bytesWritten;
    var size;
    if f.kind.Fixed32? {
      FixedItems(f.kind, vs);
      size := 4 * |vs|;
    } else if f.kind.Fixed64? {
      FixedItems(f.kind, vs);
      size := 8 * |vs|;
    } else {
      var measure := new OStream(true, 0);
      ok := EncodeNumbers(measure, f.kind, vs);
      size := measure.bytesWritten;
    }
    assert size == |body|;
    ok := EncodeVarint(stream, size);
    if !ok {
      return false;
    }
    ghost var o2, n2 := stream.out, stream.bytesWritten;
    AddedTwice(stream.sizing, old(stream.out), old(stream.bytesWritten), o1, n1, o2, n2, tag, Varint(|body|));
    if stream.sizing {
      stream.bytesWritten := stream.bytesWritten + size;
    } else {
      ok := EncodeNumbers(stream, f.kind, vs);
    }
    if ok {
      AddedTwice(stream.sizing, old(stream.out), old(stream.bytesWritten), o2, n2, stream.out, stream.bytesWritten, tag + Varint(|body|), body);
    }
  }

  method EncodeElements(stream: OStream, f: Field, vs: seq<Value>) returns (ok: bool)
    requires f.tag < 0x2000_0000 && !Packable(f.kind) && vs != []
    requires forall k :: 0 <= k < |vs| ==> HasShape(f.kind, vs[k]) && Measurable(f.kind, vs[k])
    requires stream.Room(0)
    modifies stream
    ensures stream.Room(0)
    ensures ok == ((forall k :: 0 <= k < |vs| ==> Encodable(f.kind, vs[k])) && old(stream.Room(|EncodeArray(f, vs)|)))
    ensures ok ==> Added(stream.sizing, old(stream.out), old(stream.bytesWritten), stream.out, stream.bytesWritten, EncodeArray(f, vs))
    decreases vs, 1
  {
    hide EncodeItems, EncodeValue, HasShape, TagBytes, Encodable, Measurable;
    ghost var tag := TagBytes(f.tag, WireType(f.kind));
    assert EncodeArray(f, vs) == EncodeItems(f.kind, vs, tag);
    hide EncodeArray;
    NoItems(f.kind, vs, tag);
    for i := 0 to |vs|
      invariant Added(stream.sizing, old(stream.out), old(stream.bytesWritten), stream.out, stream.bytesWritten, EncodeItems(f.kind, vs[..i], tag))
      invariant old(stream.Room(|EncodeItems(f.kind, vs[..i], tag)|))
      invariant forall k :: 0 <= k < i ==> Encodable(f.kind, vs[k])
    {
      ghost var o, n := stream.out, stream.bytesWritten;
      ItemsNext(f.kind, vs, tag, i);
      ok := EncodeTaggedField(stream, f, vs[i]);
      if !ok {
        return false;
      }
      AddedTwice(stream.sizing, old(stream.out), old(stream.bytesWritten), o, n, stream.out, stream.bytesWritten,
                 EncodeItems(f.kind, vs[..i], tag), EncodeTagged(f, vs[i]));
    }
    assert vs[..|vs|] == vs;
    return true;
  }

  /** encode_basic_field: a field is written when it is required, when its flag says so or when it does not look like zero. */
  method EncodeField(stream: OStream, f: Field, s: Slot) returns (ok: bool)
    requires SlotShaped(f, s) && SlotMeasurable(f, s)
    requires stream.Room(0)
    modifies stream
    ensures stream.Room(0)
    ensures ok == (SlotEncodable(f, s) && old(stream.Room(|EncodeSlot(f, s)|)))
    ensures ok ==> Added(stream.sizing, old(stream.out), old(stream.bytesWritten), stream.out, stream.bytesWritten, EncodeSlot(f, s))
    decreases s, 1
  {
    hide HasShape, Encodable, Measurable, EncodeTagged, EncodeArray, LooksZero;
    ok := true;
    match s
    case One(v) =>
      if f.rule.Required? || !LooksZero(f.kind, v) {
        ok := EncodeTaggedField(stream, f, v);
      }
    case Maybe(present, v) =>
      if present {
        ok := EncodeTaggedField(stream, f, v);
      }
    case Many(vs) =>
      ok := EncodeArrayField(stream, f, vs);
    case Union(chosen) =>
      if chosen.Some? {
        ok := EncodeTaggedField(stream, f, chosen.value);
      }
  }

  lemma {:induction false} MessagePrefix(fields: seq<Field>, slots: seq<Slot>, i: nat)
    requires AllShaped(fields, slots) && i <= |fields|
    ensures AllShaped(fields[..i], slots[..i]) && |EncodeAll(fields[..i], slots[..i])| <= |EncodeAll(fields, slots)|
    decreases |fields|
  {
    hide EncodeSlot, SlotShaped;
    if i < |fields| {
      var n := |fields| - 1;
      assert SlotShaped(fields[n], slots[n]);
      MessagePrefix(fields[..n], slots[..n], i);
      assert fields[..n][..i] == fields[..i] && slots[..n][..i] == slots[..i];
    } else {
      assert fields[..i] == fields && slots[..i] == slots;
    }
  }

  lemma MessageNext(fields: seq<Field>, slots: seq<Slot>, i: nat)
    requires AllShaped(fields, slots) && i < |fields|
    ensures SlotShaped(fields[i], slots[i]) && AllShaped(fields[..i], slots[..i]) && AllShaped(fields[..i + 1], slots[..i + 1])
    ensures EncodeAll(fields[..i + 1], slots[..i + 1]) == EncodeAll(fields[..i], slots[..i]) + EncodeSlot(fields[i], slots[i])
    ensures |EncodeAll(fields[..i + 1], slots[..i + 1])| <= |EncodeAll(fields, slots)|
  {
    MessagePrefix(fields, slots, i);
    MessagePrefix(fields, slots, i + 1);
    hide EncodeSlot, SlotShaped;
    assert fields[..i + 1][..i] == fields[..i] && slots[..i + 1][..i] == slots[..i];
  }

  /** pb_encode: the fields of a message, one after another. */
  method EncodeMessage(stream: OStream, fields: seq<Field>, slots: seq<Slot>) returns (ok: bool)
    requires AllShaped(fields, slots) && AllMeasurable(fields, slots)
    requires stream.Room(0)
    modifies stream
    ensures stream.Room(0)
    ensures ok == (AllEncodable(fields, slots) && old(stream.Room(|EncodeAll(fields, slots)|)))
    ensures ok ==> Added(stream.sizing, old(stream.out), old(stream.bytesWritten), stream.out, stream.bytesWritten, EncodeAll(fields, slots))
    decreases slots, 3
  {
    hide EncodeAll, EncodeSlot, SlotShaped, SlotEncodable, SlotMeasurable;
    NoFields(fields, slots);
    for i := 0 to |fields|
      invariant AllShaped(fields[..i], slots[..i])
      invariant Added(stream.sizing, old(stream.out), old(stream.bytesWritten), stream.out, stream.bytesWritten, EncodeAll(fields[..i], slots[..i]))
      invariant old(stream.Room(|EncodeAll(fields[..i], slots[..i])|))
      invariant forall k :: 0 <= k < i ==> SlotShaped(fields[k], slots[k]) && SlotEncodable(fields[k], slots[k])
    {
      ghost var o, n := stream.out, stream.bytesWritten;
      MessageNext(fields, slots, i);
      ok := EncodeField(stream, fields[i], slots[i]);
      if !ok {
        return false;
      }
      AddedTwice(stream.sizing, old(stream.out), old(stream.bytesWritten), o, n, stream.out, stream.bytesWritten,
                 EncodeAll(fields[..i], slots[..i]), EncodeSlot(fields[i], slots[i]));
    }
    assert fields[..|fields|] == fields && slots[..|slots|] == slots;
    return true;
  }

  lemma NoFields(fields: seq<Field>, slots: seq<Slot>)
    requires AllShaped(fields, slots)
    ensures |slots| == |fields| && AllShaped(fields[..0], slots[..0]) && EncodeAll(fields[..0], slots[..0]) == []
  {
  }

  /** pb_get_encoded_size, for a message that can be encoded: the size of what pb_encode writes. */
  method GetEncodedSize(fields: seq<Field>, slots: seq<Slot>) returns (ok: bool, size: nat)
    requires AllShaped(fields, slots) && AllMeasurable(fields, slots)
    ensures ok == AllEncodable(fields, slots) && (ok ==> size == |EncodeAll(fields, slots)|)
  {
    hide AllEncodable, AllMeasurable, AllShaped, EncodeAll;
    var stream := new OStream(true, 0);
    ok := EncodeMessage(stream, fields, slots);
    size := stream.bytesWritten;
  }

  /** Encoding a message in range into a buffer succeeds if and only if the buffer holds the measured size, and then
      writes exactly that many bytes. */
  method EncodeToBuffer(fields: seq<Field>, slots: seq<Slot>, bufferSize: nat) returns (ok: bool, bytes: Bytes)
    requires AllShaped(fields, slots) && AllMeasurable(fields, slots)
    ensures ok == (AllEncodable(fields, slots) && |EncodeAll(fields, slots)| <= bufferSize)
    ensures ok ==> bytes == EncodeAll(fields, slots)
  {
    hide AllEncodable, AllMeasurable, AllShaped, EncodeAll;
    var stream := new OStream(false, bufferSize);
    ok := EncodeMessage(stream, fields, slots);
    bytes := stream.out;
    assert [] + EncodeAll(fields, slots) == EncodeAll(fields, slots);
  }
}
