/** Decoding undoes encoding (nanopb): whatever was written comes back, whatever was not is at its default. */
module ProtoRoundTrip {
  import opened Keys
  import opened Coding
  import opened ProtoTypes
  import opened ProtoDecode
  import opened ProtoValues
  import opened ProtoParts
  import opened ProtoStreams

  // What it comes to.

  /** Decoding what was encoded gives back the message with everything that was not written at its default. */
  lemma RoundTrip(fields: seq<Field>, slots: seq<Slot>)
    requires DescriptorOk(fields) && AllShaped(fields, slots) && AllInRange(fields, slots)
    ensures Decode(fields, EncodeAll(fields, slots)) == Some(ResetAll(fields, slots))
  {
    hide DecodeMessage, EncodeAll, ResetAll, Defaults, AllShaped, AllInRange, Built, RoomForAll, MergedAll;
    RoomAtDefaults(fields, slots);
    MergedFreshAll(fields, slots);
    MessageMerged(fields, Defaults(fields), slots);
  }

  /** Two messages one after the other are decoded as one: the second is merged into the first. */
  lemma MessagesMerge(fields: seq<Field>, a: seq<Slot>, b: seq<Slot>)
    requires DescriptorOk(fields) && AllShaped(fields, a) && AllInRange(fields, a) && AllShaped(fields, b) && AllInRange(fields, b)
    requires Built(fields, ResetAll(fields, a)) && RoomForAll(fields, ResetAll(fields, a), b)
    ensures Decode(fields, EncodeAll(fields, a) + EncodeAll(fields, b)) == Some(MergedAll(fields, ResetAll(fields, a), b))
  {
    var now, n := ResetAll(fields, a), |fields|;
    hide DecodeFields, EncodeAll, ResetAll, Defaults, AllShaped, AllInRange, Built, RoomForAll, MergedAll, MergedUpTo, Seen;
    RoomAtDefaults(fields, a);
    MergedFreshAll(fields, a);
    BuiltSize(fields, Defaults(fields));
    WholeMessage(fields, a);
    WholeMessage(fields, b);
    SlotsMerged(fields, Defaults(fields), a, n, EncodeAll(fields, b), {});
    MergedEnds(fields, Defaults(fields), a);
    SlotsMerged(fields, now, b, n, [], {} + Seen(fields, n));
    MergedEnds(fields, now, b);
    assert EncodeAll(fields, b) + [] == EncodeAll(fields, b);
    AllRequiredSeen(fields);
    assert {} + Seen(fields, n) + Seen(fields, n) == Seen(fields, n);
    DecodeNothing(fields, MergedAll(fields, now, b), Seen(fields, n));
  }

  lemma {:induction false} ResetBuilt(fields: seq<Field>, slots: seq<Slot>)
    requires AllShaped(fields, slots) && AllInRange(fields, slots)
    ensures Built(fields, ResetAll(fields, slots))
  {
    hide AllShaped, AllInRange, Built, MergedAll, ResetAll, Defaults;
    RoomAtDefaults(fields, slots);
    MergedFreshAll(fields, slots);
    MergedUpToBuilt(fields, Defaults(fields), slots, |fields|);
    MergedEnds(fields, Defaults(fields), slots);
  }

  /** Numbers of an array sent one by one, as other encoders may do, read back like a packed array. */
  lemma UnpackedRoundTrip(f: Field, vs: seq<Value>)
    requires DescriptorOk([f]) && f.rule.Repeated? && Packable(f.kind) && |vs| <= f.rule.max && forall k :: 0 <= k < |vs| ==> HasShape(f.kind, vs[k])
    ensures Decode([f], EncodeItems(f.kind, vs, TagBytes(f.tag, WireType(f.kind)))) == Some([Many(vs)])
  {
    hide HasShape, EncodeItems, Decode, DescriptorOk, StreamOf, AllElements;
    EachAlone(f, vs);
    ArraySplits(f, Alones(vs));
    NumbersReset(f.kind, vs);
  }

  function Alones(vs: seq<Value>): seq<Part> {
    seq(|vs|, k requires 0 <= k < |vs| => Alone(0, vs[k]))
  }

  lemma {:induction false} EachAlone(f: Field, vs: seq<Value>)
    requires f.rule.Repeated? && Packable(f.kind) && forall k :: 0 <= k < |vs| ==> HasShape(f.kind, vs[k])
    ensures AllOk([f], Alones(vs)) && forall k :: 0 <= k < |vs| ==> PieceOf([f], 0, Alones(vs)[k])
    ensures StreamOf([f], Alones(vs)) == EncodeItems(f.kind, vs, TagBytes(f.tag, WireType(f.kind))) && AllElements(Alones(vs)) == vs
    decreases |vs|
  {
    hide HasShape, EncodeItems, EncodeValue, TagBytes;
    var tag := TagBytes(f.tag, WireType(f.kind));
    if vs == [] {
      NoItems(f.kind, vs, tag);
    } else {
      EachAlone(f, vs[1..]);
      EncodeItemsFirst(f.kind, vs, tag);
      assert Alones(vs)[1..] == Alones(vs[1..]);
    }
  }

  /** Everything that is not written is at its default, in submessages too. */
  predicate RestAtDefault(kind: DataType, v: Value)
    requires HasShape(kind, v)
    decreases v
  {
    kind.Submessage? ==> AllRestAtDefault(kind.desc.fields, v.slots)
  }

  predicate AllRestAtDefault(fields: seq<Field>, slots: seq<Slot>)
    requires AllShaped(fields, slots)
    decreases slots
  {
    forall i :: 0 <= i < |fields| ==> SlotRestAtDefault(fields[i], slots[i])
  }

  predicate SlotRestAtDefault(f: Field, s: Slot)
    requires SlotShaped(f, s)
    decreases s
  {
    match s
    case One(v) => if Emitted(f, s) then RestAtDefault(f.kind, v) else s == DefaultSlot(f)
    case Maybe(present, v) => if present then RestAtDefault(f.kind, v) else s == DefaultSlot(f)
    case Many(vs) => forall i :: 0 <= i < |vs| ==> RestAtDefault(f.kind, vs[i])
    case Union(chosen) => chosen.Some? ==> RestAtDefault(f.kind, chosen.value)
  }

  lemma {:induction false} ResetSame(kind: DataType, v: Value)
    requires HasShape(kind, v)
    ensures Reset(kind, v) == v <==> RestAtDefault(kind, v)
    decreases v, 0
  {
    if kind.Submessage? {
      ResetAllSame(kind.desc.fields, v.slots);
    }
  }

  lemma {:induction false} ResetAllSame(fields: seq<Field>, slots: seq<Slot>)
    requires AllShaped(fields, slots)
    ensures ResetAll(fields, slots) == slots <==> AllRestAtDefault(fields, slots)
    decreases slots, 1
  {
    hide SlotShaped, ResetSlot, SlotRestAtDefault;
    forall i | 0 <= i < |fields| ensures SlotShaped(fields[i], slots[i]) && (ResetSlot(fields[i], slots[i]) == slots[i] <==> SlotRestAtDefault(fields[i], slots[i])) {
      ResetSlotSame(fields[i], slots[i]);
    }
  }

  lemma {:induction false} ResetSlotSame(f: Field, s: Slot)
    requires SlotShaped(f, s)
    ensures ResetSlot(f, s) == s <==> SlotRestAtDefault(f, s)
    decreases s, 0
  {
    hide HasShape, Reset, RestAtDefault, LooksZero;
    match s
    case One(v) => ResetSame(f.kind, v);
    case Maybe(_, v) => ResetSame(f.kind, v);
    case Union(chosen) =>
      if chosen.Some? {
        ResetSame(f.kind, chosen.value);
      }
    case Many(vs) =>
      forall i | 0 <= i < |vs| ensures Reset(f.kind, vs[i]) == vs[i] <==> RestAtDefault(f.kind, vs[i]) {
        ResetSame(f.kind, vs[i]);
      }
      assert ResetSlot(f, s).values == seq(|vs|, i requires 0 <= i < |vs| => Reset(f.kind, vs[i]));
  }

  /** A message comes back unchanged if and only if everything its encoding leaves out is at its default. */
  lemma RoundTripExact(fields: seq<Field>, slots: seq<Slot>)
    requires DescriptorOk(fields) && AllShaped(fields, slots) && AllInRange(fields, slots)
    ensures Decode(fields, EncodeAll(fields, slots)) == Some(slots) <==> AllRestAtDefault(fields, slots)
  {
    hide Decode, EncodeAll, ResetAll, AllRestAtDefault;
    RoundTrip(fields, slots);
    ResetAllSame(fields, slots);
  }

  // Where it does not: a submessage without a has_ flag is left out when the first element of its array is zero.

  const INNER: Descriptor := Descriptor([Field(1, Repeated(4), UnsignedVarint(4), None)])
  const OUTER: Descriptor := Descriptor([Field(1, Optional(false), Submessage(INNER), None)])
  const LOST: seq<Slot> := [One(Record([Many([Number(0), Number(7)])]))]

  lemma LostShape()
    ensures DescriptorOk(INNER.fields) && DescriptorOk(OUTER.fields)
    ensures SlotShaped(INNER.fields[0], LOST[0].value.slots[0]) && AllShaped(INNER.fields, LOST[0].value.slots)
    ensures SlotShaped(OUTER.fields[0], LOST[0]) && AllShaped(OUTER.fields, LOST)
  {
    assert RequiredBefore(INNER.fields, 1) == 0 && RequiredBefore(OUTER.fields, 1) == 0;
    assert FieldOk(INNER.fields[0]) && FieldOk(OUTER.fields[0]);
    assert HasShape(UnsignedVarint(4), Number(0)) && HasShape(UnsignedVarint(4), Number(7));
    assert SlotShaped(INNER.fields[0], LOST[0].value.slots[0]);
    assert AllShaped(INNER.fields, LOST[0].value.slots);
    assert HasShape(Submessage(INNER), LOST[0].value);
  }

  lemma LostLooksZero()
    requires SlotShaped(OUTER.fields[0], LOST[0])
    ensures !Emitted(OUTER.fields[0], LOST[0])
  {
    LostShape();
    assert LooksZero(UnsignedVarint(4), Number(0));
    assert SlotLooksZero(INNER.fields[0], LOST[0].value.slots[0]);
    assert LooksZero(Submessage(INNER), LOST[0].value);
  }

  /** Such a message holds two numbers and decodes to one that holds none. */
  lemma ArrayBehindZeroLost()
    ensures DescriptorOk(OUTER.fields) && AllShaped(OUTER.fields, LOST) && AllInRange(OUTER.fields, LOST)
    ensures Decode(OUTER.fields, EncodeAll(OUTER.fields, LOST)) == Some([One(Record([Many([])]))])
    ensures LOST != [One(Record([Many([])]))]
  {
    LostShape();
    LostLooksZero();
    assert SlotInRange(OUTER.fields[0], LOST[0]);
    RoundTrip(OUTER.fields, LOST);
    hide Decode, EncodeAll;
    assert ResetSlot(OUTER.fields[0], LOST[0]) == DefaultSlot(OUTER.fields[0]);
    assert Defaults(INNER.fields) == [Many([])];
    assert ResetAll(OUTER.fields, LOST) == [One(Record([Many([])]))];
    assert |LOST[0].value.slots[0].values| == 2;
  }

  const BLOBS: Descriptor := Descriptor([Field(1, Repeated(1), FixedBlob(4), None), Field(2, Repeated(4), UnsignedVarint(4), None)])
  const BEHIND: Descriptor := Descriptor([Field(1, Optional(false), Submessage(BLOBS), None)])
  const KEPT: seq<Slot> := [One(Record([Many([]), Many([Number(0), Number(7)])]))]

  lemma KeptShape()
    ensures DescriptorOk(BLOBS.fields) && DescriptorOk(BEHIND.fields)
    ensures SlotShaped(BLOBS.fields[0], KEPT[0].value.slots[0]) && SlotShaped(BLOBS.fields[1], KEPT[0].value.slots[1])
    ensures AllShaped(BLOBS.fields, KEPT[0].value.slots) && SlotShaped(BEHIND.fields[0], KEPT[0]) && AllShaped(BEHIND.fields, KEPT)
  {
    assert RequiredBefore(BLOBS.fields, 1) == 0 && RequiredBefore(BLOBS.fields, 2) == 0 && RequiredBefore(BEHIND.fields, 1) == 0;
    assert FieldOk(BLOBS.fields[0]) && FieldOk(BLOBS.fields[1]) && FieldOk(BEHIND.fields[0]);
    assert HasShape(UnsignedVarint(4), Number(0)) && HasShape(UnsignedVarint(4), Number(7));
    assert AllShaped(BLOBS.fields, KEPT[0].value.slots);
    assert HasShape(Submessage(BLOBS), KEPT[0].value);
  }

  lemma KeptEmitted()
    requires SlotShaped(BEHIND.fields[0], KEPT[0])
    ensures Emitted(BEHIND.fields[0], KEPT[0])
  {
    KeptShape();
    assert !SlotLooksZero(BLOBS.fields[0], KEPT[0].value.slots[0]);
    assert !LooksZero(Submessage(BLOBS), KEPT[0].value);
  }

  lemma KeptInRange()
    requires AllShaped(BEHIND.fields, KEPT)
    ensures AllInRange(BEHIND.fields, KEPT)
  {
    KeptShape();
    KeptSizes();
    var slots := KEPT[0].value.slots;
    assert InRange(UnsignedVarint(4), Number(0)) && InRange(UnsignedVarint(4), Number(7));
    assert SlotInRange(BLOBS.fields[0], slots[0]) && SlotInRange(BLOBS.fields[1], slots[1]);
    assert AllInRange(BLOBS.fields, slots);
    assert InRange(Submessage(BLOBS), KEPT[0].value);
    assert SlotInRange(BEHIND.fields[0], KEPT[0]);
  }

  lemma KeptSizes()
    requires AllShaped(BLOBS.fields, KEPT[0].value.slots)
    ensures EncodeItems(UnsignedVarint(4), [Number(0), Number(7)], []) == [0, 7]
    ensures EncodeAll(BLOBS.fields, KEPT[0].value.slots) == [0x12, 2, 0, 7]
  {
    var vs, slots := [Number(0), Number(7)], KEPT[0].value.slots;
    KeptShape();
    assert HasShape(UnsignedVarint(4), Number(0)) && HasShape(UnsignedVarint(4), Number(7));
    assert vs[..1] == [Number(0)] && vs[..1][..0] == [];
    assert EncodeItems(UnsignedVarint(4), vs[..1], []) == [0];
    assert EncodeItems(UnsignedVarint(4), vs, []) == [0, 7];
    assert EncodeSlot(BLOBS.fields[1], slots[1]) == [0x12] + [2] + [0, 7];
    assert EncodeSlot(BLOBS.fields[0], slots[0]) == [];
    assert slots[..1][..0] == [] && EncodeAll(BLOBS.fields[..1], slots[..1]) == [];
  }

  /** Beside an empty array of fixed-length bytes the same array is kept: of those only the length is looked at. */
  lemma ArrayBesideBlobsKept()
    ensures DescriptorOk(BEHIND.fields) && AllShaped(BEHIND.fields, KEPT) && AllInRange(BEHIND.fields, KEPT)
    ensures Decode(BEHIND.fields, EncodeAll(BEHIND.fields, KEPT)) == Some(KEPT)
  {
    KeptShape();
    KeptInRange();
    hide *;
    KeptRest();
    RoundTripExact(BEHIND.fields, KEPT);
  }

  lemma KeptRest()
    requires AllShaped(BEHIND.fields, KEPT)
    ensures AllRestAtDefault(BEHIND.fields, KEPT)
  {
    KeptShape();
    KeptEmitted();
    hide Emitted, DefaultSlot;
    assert RestAtDefault(UnsignedVarint(4), Number(0)) && RestAtDefault(UnsignedVarint(4), Number(7));
    assert SlotRestAtDefault(BLOBS.fields[0], KEPT[0].value.slots[0]) && SlotRestAtDefault(BLOBS.fields[1], KEPT[0].value.slots[1]);
    assert RestAtDefault(Submessage(BLOBS), KEPT[0].value);
    assert SlotRestAtDefault(BEHIND.fields[0], KEPT[0]);
  }
}
