/** Decoding a stream made of any parts in any order: values of fields, single elements of arrays, and unknown fields, into a
    message that may hold something already (nanopb: pb_decode.c). */
module ProtoParts {
  import opened Keys
  import opened Coding
  import opened ProtoTypes
  import opened ProtoDecode
  import opened ProtoValues

  // Messages that can be decoded into.

  /** Slots are of the kind their fields call for, in submessages too. */
  predicate Built(fields: seq<Field>, slots: seq<Slot>)
    decreases slots
  {
    |slots| == |fields| && forall i :: 0 <= i < |fields| ==> SlotBuilt(fields[i], slots[i])
  }

  predicate SlotBuilt(f: Field, s: Slot)
    decreases s
  {
    match f.rule
    case Required => s.One? && ValueBuilt(f.kind, s.value)
    case Optional(flag) => (if flag then s.Maybe? else s.One?) && ValueBuilt(f.kind, s.value)
    case Repeated(_) => s.Many?
    case OneOf(_) => s.Union?
  }

  predicate ValueBuilt(kind: DataType, v: Value)
    decreases v
  {
    kind.Submessage? ==> v.Record? && Built(kind.desc.fields, v.slots)
  }

  lemma {:induction false} DefaultsBuilt(fields: seq<Field>)
    ensures Built(fields, Defaults(fields))
    decreases fields, 1
  {
    forall i | 0 <= i < |fields| ensures SlotBuilt(fields[i], DefaultSlot(fields[i])) {
      DefaultBuilt(fields[i]);
    }
  }

  lemma {:induction false} DefaultBuilt(f: Field)
    ensures SlotBuilt(f, DefaultSlot(f)) && ValueBuilt(f.kind, ZeroOf(f.kind))
    decreases f, 0
  {
    if f.kind.Submessage? {
      DefaultsBuilt(f.kind.desc.fields);
    }
  }

  // What a message becomes.

  /** A value decoded where another is: a submessage is merged into what is there, anything else takes its place. */
  ghost function MergedValue(kind: DataType, c: Value, v: Value): Value
    requires HasShape(kind, v) && ValueBuilt(kind, c)
    decreases v
  {
    if kind.Submessage? then Record(MergedAll(kind.desc.fields, c.slots, v.slots)) else v
  }

  /** What is written for a slot, decoded where c is: elements are added to an array, a member of a oneof starts afresh. */
  ghost function MergedSlot(f: Field, c: Slot, s: Slot): Slot
    requires SlotShaped(f, s) && SlotBuilt(f, c)
    decreases s
  {
    match s
    case One(v) => if Emitted(f, s) then One(MergedValue(f.kind, c.value, v)) else c
    case Maybe(present, v) => if present then Maybe(true, MergedValue(f.kind, c.value, v)) else c
    case Many(vs) => Many(c.values + Resets(f.kind, vs))
    case Union(chosen) => if chosen.Some? then Union(Some(Reset(f.kind, chosen.value))) else c
  }

  predicate Chosen(s: Slot) {
    s.Union? && s.chosen.Some?
  }

  predicate SameOneOf(f: Field, g: Field) {
    f.rule.OneOf? && f.rule == g.rule
  }

  /** Another member of the field's oneof is chosen among the first n. */
  ghost predicate Displaced(fields: seq<Field>, slots: seq<Slot>, k: nat, n: nat)
    requires k < |fields| == |slots| && n <= |fields|
  {
    exists j :: 0 <= j < n && j != k && SameOneOf(fields[j], fields[k]) && Chosen(slots[j])
  }

  /** One message decoded into another. */
  ghost function MergedAll(fields: seq<Field>, cur: seq<Slot>, slots: seq<Slot>): seq<Slot>
    requires AllShaped(fields, slots) && Built(fields, cur)
    decreases slots
  {
    seq(|fields|, k requires 0 <= k < |fields| =>
      if Displaced(fields, slots, k, |fields|) then Union(None) else MergedSlot(fields[k], cur[k], slots[k]))
  }

  function Resets(kind: DataType, vs: seq<Value>): seq<Value>
    requires forall i :: 0 <= i < |vs| ==> HasShape(kind, vs[i])
  {
    seq(|vs|, i requires 0 <= i < |vs| => Reset(kind, vs[i]))
  }

  // Arrays must have room, in submessages that are merged too.

  ghost predicate RoomFor(f: Field, c: Slot, s: Slot)
    requires SlotShaped(f, s) && SlotBuilt(f, c)
    decreases s
  {
    match s
    case One(v) => Emitted(f, s) ==> ValueRoom(f.kind, c.value, v)
    case Maybe(present, v) => present ==> ValueRoom(f.kind, c.value, v)
    case Many(vs) => f.rule.Repeated? && |c.values| + |vs| <= f.rule.max
    case Union(_) => true
  }

  ghost predicate ValueRoom(kind: DataType, c: Value, v: Value)
    requires HasShape(kind, v) && ValueBuilt(kind, c)
    decreases v
  {
    kind.Submessage? ==> RoomForAll(kind.desc.fields, c.slots, v.slots)
  }

  ghost predicate RoomForAll(fields: seq<Field>, cur: seq<Slot>, slots: seq<Slot>)
    requires AllShaped(fields, slots) && Built(fields, cur)
    decreases slots
  {
    forall k :: 0 <= k < |fields| ==> RoomFor(fields[k], cur[k], slots[k])
  }

  // What is in range has room in an empty message, and comes out of it reset.

  lemma {:induction false} RoomAtDefaults(fields: seq<Field>, slots: seq<Slot>)
    requires AllShaped(fields, slots) && AllInRange(fields, slots)
    ensures Built(fields, Defaults(fields)) && RoomForAll(fields, Defaults(fields), slots)
    decreases slots, 1
  {
    DefaultsBuilt(fields);
    hide SlotShaped, SlotInRange, RoomFor, SlotBuilt;
    forall k | 0 <= k < |fields| ensures RoomFor(fields[k], Defaults(fields)[k], slots[k]) {
      assert SlotShaped(fields[k], slots[k]) && SlotInRange(fields[k], slots[k]) && SlotBuilt(fields[k], DefaultSlot(fields[k]));
      RoomAtDefault(fields[k], slots[k]);
    }
  }

  lemma {:induction false} RoomAtDefault(f: Field, s: Slot)
    requires SlotShaped(f, s) && SlotInRange(f, s)
    ensures SlotBuilt(f, DefaultSlot(f)) && RoomFor(f, DefaultSlot(f), s)
    decreases s, 0
  {
    hide LooksZero, EncodeAll, EncodeItems, RoomForAll, AllInRange, AllShaped, Built, Defaults;
    DefaultBuilt(f);
    if f.kind.Submessage? && (s.One? || s.Maybe?) {
      var v := s.value;
      assert Emitted(f, s) ==> InRange(f.kind, v);
      if Emitted(f, s) {
        RoomAtDefaults(f.kind.desc.fields, v.slots);
      }
    }
  }

  lemma {:induction false} MergedFresh(kind: DataType, v: Value)
    requires HasShape(kind, v) && InRange(kind, v)
    ensures ValueBuilt(kind, ZeroOf(kind)) && MergedValue(kind, ZeroOf(kind), v) == Reset(kind, v)
    decreases v, 0
  {
    if kind.Submessage? {
      DefaultsBuilt(kind.desc.fields);
      hide AllShaped, MergedAll, ResetAll, EncodeAll, AllInRange, Built, Defaults;
      MergedFreshAll(kind.desc.fields, v.slots);
    }
  }

  lemma {:induction false} MergedFreshAll(fields: seq<Field>, slots: seq<Slot>)
    requires AllShaped(fields, slots) && AllInRange(fields, slots)
    ensures Built(fields, Defaults(fields)) && MergedAll(fields, Defaults(fields), slots) == ResetAll(fields, slots)
    decreases slots, 2
  {
    DefaultsBuilt(fields);
    hide SlotShaped, SlotInRange, SlotBuilt, MergedSlot, ResetSlot;
    var merged := MergedAll(fields, Defaults(fields), slots);
    forall k | 0 <= k < |fields| ensures merged[k] == ResetSlot(fields[k], slots[k]) {
      assert SlotShaped(fields[k], slots[k]) && SlotInRange(fields[k], slots[k]) && SlotBuilt(fields[k], DefaultSlot(fields[k]));
      MergedFreshSlot(fields[k], slots[k]);
      if Displaced(fields, slots, k, |fields|) {
        DisplacedIsNone(fields, slots, k, |fields|);
        ResetNone(fields[k]);
      }
    }
  }

  lemma DisplacedIsNone(fields: seq<Field>, slots: seq<Slot>, k: nat, n: nat)
    requires AllShaped(fields, slots) && AllInRange(fields, slots) && k < |fields| && n <= |fields| && Displaced(fields, slots, k, n)
    ensures slots[k] == Union(None) && fields[k].rule.OneOf?
  {
    hide SlotShaped, SlotInRange;
    var j :| 0 <= j < n && j != k && SameOneOf(fields[j], fields[k]) && Chosen(slots[j]);
  }

  lemma ResetNone(f: Field)
    requires f.rule.OneOf?
    ensures SlotShaped(f, Union(None)) && ResetSlot(f, Union(None)) == Union(None)
  {
  }

  lemma {:induction false} MergedFreshSlot(f: Field, s: Slot)
    requires SlotShaped(f, s) && SlotInRange(f, s)
    ensures SlotBuilt(f, DefaultSlot(f)) && MergedSlot(f, DefaultSlot(f), s) == ResetSlot(f, s)
    decreases s, 1
  {
    DefaultBuilt(f);
    DefaultIsZero(f);
    hide LooksZero, Reset, HasShape, InRange, ZeroOf, EncodeItems;
    match s {
      case One(v) =>
        if Emitted(f, s) {
          MergedFreshOr(f, v);
        }
      case Maybe(present, v) =>
        if present {
          MergedFreshOr(f, v);
        }
      case Many(vs) => assert [] + Resets(f.kind, vs) == Resets(f.kind, vs);
      case Union(_) =>
    }
  }

  lemma {:induction false} MergedFreshOr(f: Field, v: Value)
    requires HasShape(f.kind, v) && InRange(f.kind, v) && ValueBuilt(f.kind, DefaultOf(f))
    ensures MergedValue(f.kind, DefaultOf(f), v) == Reset(f.kind, v)
    decreases v, 1
  {
    if f.kind.Submessage? {
      MergedFresh(f.kind, v);
    }
  }

  lemma DefaultIsZero(f: Field)
    ensures f.kind.Submessage? ==> DefaultOf(f) == ZeroOf(f.kind)
  {
  }

  // One message into another, slot by slot.

  /** When the first n slots have been decoded. */
  ghost function MergedUpTo(fields: seq<Field>, cur: seq<Slot>, slots: seq<Slot>, n: nat): seq<Slot>
    requires AllShaped(fields, slots) && Built(fields, cur) && n <= |fields|
  {
    seq(|fields|, k requires 0 <= k < |fields| =>
      if Displaced(fields, slots, k, n) then Union(None) else if k < n then MergedSlot(fields[k], cur[k], slots[k]) else cur[k])
  }

  /** What is written for slot i is decoded; a member of a oneof clears the others. */
  ghost function Effect(fields: seq<Field>, now: seq<Slot>, i: nat, s: Slot): seq<Slot>
    requires Built(fields, now) && i < |fields| && SlotShaped(fields[i], s)
  {
    seq(|fields|, k requires 0 <= k < |fields| =>
      if k == i then MergedSlot(fields[i], now[i], s) else if Chosen(s) && SameOneOf(fields[i], fields[k]) then Union(None) else now[k])
  }

  lemma MergedEnds(fields: seq<Field>, cur: seq<Slot>, slots: seq<Slot>)
    requires AllShaped(fields, slots) && Built(fields, cur)
    ensures MergedUpTo(fields, cur, slots, 0) == cur && MergedUpTo(fields, cur, slots, |fields|) == MergedAll(fields, cur, slots)
  {
    hide SlotShaped, SlotBuilt, MergedSlot;
  }

  lemma {:induction false} MergedBuilt(kind: DataType, c: Value, v: Value)
    requires HasShape(kind, v) && ValueBuilt(kind, c)
    ensures ValueBuilt(kind, MergedValue(kind, c, v))
    decreases v, 0
  {
    if kind.Submessage? {
      MergedUpToBuilt(kind.desc.fields, c.slots, v.slots, |kind.desc.fields|);
      MergedEnds(kind.desc.fields, c.slots, v.slots);
    }
  }

  lemma {:induction false} MergedSlotBuilt(f: Field, c: Slot, s: Slot)
    requires SlotShaped(f, s) && SlotBuilt(f, c)
    ensures SlotBuilt(f, MergedSlot(f, c, s))
    decreases s, 0
  {
    hide HasShape, LooksZero, MergedValue, ValueBuilt;
    if s.One? || s.Maybe? {
      MergedBuilt(f.kind, c.value, s.value);
    }
  }

  lemma {:induction false} MergedUpToBuilt(fields: seq<Field>, cur: seq<Slot>, slots: seq<Slot>, n: nat)
    requires AllShaped(fields, slots) && Built(fields, cur) && n <= |fields|
    ensures Built(fields, MergedUpTo(fields, cur, slots, n))
    decreases slots, 1
  {
    hide SlotShaped, MergedSlot;
    forall k | 0 <= k < |fields| ensures SlotBuilt(fields[k], MergedUpTo(fields, cur, slots, n)[k]) {
      assert SlotShaped(fields[k], slots[k]) && SlotBuilt(fields[k], cur[k]);
      MergedSlotBuilt(fields[k], cur[k], slots[k]);
    }
  }

  lemma EffectBuilt(fields: seq<Field>, now: seq<Slot>, i: nat, s: Slot)
    requires Built(fields, now) && i < |fields| && SlotShaped(fields[i], s)
    ensures Built(fields, Effect(fields, now, i, s))
  {
    MergedSlotBuilt(fields[i], now[i], s);
    hide SlotShaped, MergedSlot;
    forall k | 0 <= k < |fields| ensures SlotBuilt(fields[k], Effect(fields, now, i, s)[k]) {
      assert SlotBuilt(fields[k], now[k]);
    }
  }

  lemma MergedNext(fields: seq<Field>, cur: seq<Slot>, slots: seq<Slot>, i: nat)
    requires AllShaped(fields, slots) && AllInRange(fields, slots) && Built(fields, cur) && i < |fields|
    ensures Built(fields, MergedUpTo(fields, cur, slots, i)) && SlotShaped(fields[i], slots[i])
    ensures MergedUpTo(fields, cur, slots, i + 1) == Effect(fields, MergedUpTo(fields, cur, slots, i), i, slots[i])
  {
    MergedUpToBuilt(fields, cur, slots, i);
    var now := MergedUpTo(fields, cur, slots, i);
    if Displaced(fields, slots, i, i) {
      DisplacedIsNone(fields, slots, i, i);
    }
    assert now[i] == if Displaced(fields, slots, i, i) then Union(None) else cur[i];
    hide SlotShaped, SlotBuilt, AllInRange, Built, AllShaped;
    forall k | 0 <= k < |fields| ensures MergedUpTo(fields, cur, slots, i + 1)[k] == Effect(fields, now, i, slots[i])[k] {
      DisplacedNext(fields, slots, k, i);
      if k == i && Displaced(fields, slots, i, i) {
        NoneMerged(fields[i]);
      }
    }
  }

  lemma NoneMerged(f: Field)
    requires f.rule.OneOf?
    ensures SlotShaped(f, Union(None)) && SlotBuilt(f, Union(None)) && MergedSlot(f, Union(None), Union(None)) == Union(None)
  {
  }

  lemma DisplacedNext(fields: seq<Field>, slots: seq<Slot>, k: nat, i: nat)
    requires k < |fields| == |slots| && i < |fields|
    ensures Displaced(fields, slots, k, i + 1) <==> Displaced(fields, slots, k, i) || (i != k && SameOneOf(fields[i], fields[k]) && Chosen(slots[i]))
  {
  }

  // Decoding it.

  ghost predicate ValueOk(kind: DataType, v: Value) {
    HasShape(kind, v) && InRange(kind, v) && (kind.Submessage? ==> DescriptorOk(kind.desc.fields))
  }

  /** The required fields that have been seen after a value of field i. */
  function SeenNext(fields: seq<Field>, i: nat, s: Slot, seen: set<nat>): set<nat>
    requires i < |fields|
  {
    if s.One? then Marked(fields, i, seen) else seen
  }

  lemma MarkedOnlyRequired(fields: seq<Field>, i: nat, seen: set<nat>)
    requires i < |fields|
    ensures !fields[i].rule.Required? ==> Marked(fields, i, seen) == seen
  {
  }

  /** A value reads back into what is there, and nothing after it is touched. */
  lemma {:induction false} ValueMerged(kind: DataType, v: Value, rest: Bytes, c: Value)
    requires ValueOk(kind, v) && ValueBuilt(kind, c) && ValueRoom(kind, c, v)
    ensures DecodeValue(kind, EncodeValue(kind, v) + rest, c) == Some(Parsed(MergedValue(kind, c, v), rest))
    decreases v, 0
  {
    hide DecodeNumber, DecodeString, StringAt, EncodeAll, MergedAll, DecodeMessage, DescriptorOk, AllInRange, Built, RoomForAll;
    if kind.Submessage? {
      var fields := kind.desc.fields;
      var body := EncodeAll(fields, v.slots);
      StringBack(body, rest);
      BuiltSize(fields, c.slots);
      MessageMerged(fields, c.slots, v.slots);
    } else if Packable(kind) {
      NumberRoundTrip(kind, v, rest);
    } else {
      DataRoundTrip(kind, v, rest);
    }
  }

  lemma BuiltSize(fields: seq<Field>, slots: seq<Slot>)
    requires Built(fields, slots)
    ensures |slots| == |fields|
  {
  }

  /** The bytes of a whole message, decoded into another. */
  lemma {:induction false} MessageMerged(fields: seq<Field>, cur: seq<Slot>, slots: seq<Slot>)
    requires DescriptorOk(fields) && AllShaped(fields, slots) && AllInRange(fields, slots)
    requires Built(fields, cur) && RoomForAll(fields, cur, slots)
    ensures |cur| == |fields| && DecodeMessage(fields, EncodeAll(fields, slots), cur) == Some(MergedAll(fields, cur, slots))
    decreases slots, 4
  {
    hide DecodeFields, EncodeAll, AllInRange, Built, RoomForAll, AllShaped, MergedAll, MergedUpTo;
    BuiltSize(fields, cur);
    SlotsMerged(fields, cur, slots, |fields|, [], {});
    WholeMessage(fields, slots);
    assert EncodeAll(fields, slots) + [] == EncodeAll(fields, slots);
    MergedEnds(fields, cur, slots);
    DecodeNothing(fields, MergedAll(fields, cur, slots), {} + Seen(fields, |fields|));
    AllRequiredSeen(fields);
    assert {} + Seen(fields, |fields|) == Seen(fields, |fields|);
  }

  lemma WholeMessage(fields: seq<Field>, slots: seq<Slot>)
    requires AllShaped(fields, slots)
    ensures |slots| == |fields| && fields[..|fields|] == fields && slots[..|fields|] == slots
  {
  }

  lemma DecodeNothing(fields: seq<Field>, slots: seq<Slot>, seen: set<nat>)
    requires |slots| == |fields|
    ensures DecodeFields(fields, [], slots, seen) == Some((slots, seen))
  {
  }

  function UpTo(n: nat): (s: set<nat>)
    ensures forall r: nat :: r in s <==> r < n
  {
    if n == 0 then {} else UpTo(n - 1) + {n - 1}
  }

  // The required fields among the first i.
  function Seen(fields: seq<Field>, i: nat): set<nat>
    requires i <= |fields|
  {
    UpTo(RequiredBefore(fields, i))
  }

  lemma AllRequiredSeen(fields: seq<Field>)
    requires DescriptorOk(fields)
    ensures AllSeen(fields, Seen(fields, |fields|)) && Seen(fields, 0) == {}
  {
  }

  lemma SeenStep(fields: seq<Field>, i: nat, s: Slot, seen: set<nat>)
    requires i < |fields| && DescriptorOk(fields) && SlotShaped(fields[i], s)
    ensures SeenNext(fields, i, s, seen + Seen(fields, i)) == seen + Seen(fields, i + 1)
  {
    RequiredGrows(fields, i, |fields|);
  }

  lemma EncodedNext(fields: seq<Field>, slots: seq<Slot>, i: nat)
    requires AllShaped(fields, slots) && i < |fields|
    ensures SlotShaped(fields[i], slots[i]) && AllShaped(fields[..i], slots[..i]) && AllShaped(fields[..i + 1], slots[..i + 1])
    ensures EncodeAll(fields[..i + 1], slots[..i + 1]) == EncodeAll(fields[..i], slots[..i]) + EncodeSlot(fields[i], slots[i])
  {
    hide EncodeSlot, SlotShaped;
    assert fields[..i + 1][..i] == fields[..i] && slots[..i + 1][..i] == slots[..i];
  }

  lemma EncodedNothing(fields: seq<Field>, slots: seq<Slot>)
    ensures AllShaped(fields[..0], slots[..0]) && EncodeAll(fields[..0], slots[..0]) == []
  {
  }

  lemma SlotFits(fields: seq<Field>, cur: seq<Slot>, slots: seq<Slot>, i: nat)
    requires DescriptorOk(fields) && AllShaped(fields, slots) && AllInRange(fields, slots) && i < |fields|
    requires Built(fields, cur) && RoomForAll(fields, cur, slots)
    ensures SlotShaped(fields[i], slots[i]) && SlotInRange(fields[i], slots[i]) && FieldOk(fields[i])
    ensures SlotBuilt(fields[i], cur[i]) && RoomFor(fields[i], cur[i], slots[i])
  {
  }

  lemma {:induction false} SlotsMerged(fields: seq<Field>, cur: seq<Slot>, slots: seq<Slot>, n: nat, rest: Bytes, seen: set<nat>)
    requires DescriptorOk(fields) && AllShaped(fields, slots) && AllInRange(fields, slots) && n <= |fields|
    requires Built(fields, cur) && RoomForAll(fields, cur, slots)
    ensures AllShaped(fields[..n], slots[..n]) && |cur| == |fields| == |MergedUpTo(fields, cur, slots, n)|
    ensures DecodeFields(fields, EncodeAll(fields[..n], slots[..n]) + rest, cur, seen)
         == DecodeFields(fields, rest, MergedUpTo(fields, cur, slots, n), seen + Seen(fields, n))
    decreases slots, 3, n
  {
    hide DecodeFields, EncodeAll, AllInRange, RoomForAll, AllShaped, DescriptorOk, SlotShaped, SlotBuilt, Seen, EncodeSlot, Effect;
    BuiltSize(fields, cur);
    ShapedSize(fields, slots);
    if n == 0 {
      EncodedNothing(fields, slots);
      MergedEnds(fields, cur, slots);
      AllRequiredSeen(fields);
      assert [] + rest == rest && seen + Seen(fields, 0) == seen;
    } else {
      var i := n - 1;
      EncodedNext(fields, slots, i);
      SlotsMerged(fields, cur, slots, i, EncodeSlot(fields[i], slots[i]) + rest, seen);
      Regroup(EncodeAll(fields[..i], slots[..i]), EncodeSlot(fields[i], slots[i]), rest);
      MergedNext(fields, cur, slots, i);
      SlotFits(fields, cur, slots, i);
      RoomStays(fields, cur, slots, i);
      SlotMerged(fields, i, slots[i], MergedUpTo(fields, cur, slots, i), rest, seen + Seen(fields, i));
      SeenStep(fields, i, slots[i], seen);
    }
  }

  lemma ShapedSize(fields: seq<Field>, slots: seq<Slot>)
    requires AllShaped(fields, slots)
    ensures |slots| == |fields|
  {
  }

  lemma RoomStays(fields: seq<Field>, cur: seq<Slot>, slots: seq<Slot>, i: nat)
    requires AllShaped(fields, slots) && i < |fields| && Built(fields, cur)
    requires SlotShaped(fields[i], slots[i]) && SlotBuilt(fields[i], cur[i]) && RoomFor(fields[i], cur[i], slots[i])
    ensures var now := MergedUpTo(fields, cur, slots, i); SlotBuilt(fields[i], now[i]) && RoomFor(fields[i], now[i], slots[i])
  {
    MergedUpToBuilt(fields, cur, slots, i);
    hide ValueRoom;
  }

  /** What is written for one slot, decoded into any message. */
  lemma {:induction false} SlotMerged(fields: seq<Field>, i: nat, s: Slot, now: seq<Slot>, rest: Bytes, seen: set<nat>)
    requires DescriptorOk(fields) && Built(fields, now) && i < |fields|
    requires SlotShaped(fields[i], s) && SlotInRange(fields[i], s) && FieldOk(fields[i])
    requires SlotBuilt(fields[i], now[i]) && RoomFor(fields[i], now[i], s)
    ensures |now| == |fields| == |Effect(fields, now, i, s)|
    ensures DecodeFields(fields, EncodeSlot(fields[i], s) + rest, now, seen)
         == DecodeFields(fields, rest, Effect(fields, now, i, s), SeenNext(fields, i, s, seen))
    decreases s, 2
  {
    var f := fields[i];
    BuiltSize(fields, now);
    NothingChanges(fields, now, i, s, seen);
    hide DecodeFields, EncodeTagged, EncodeArray, DescriptorOk, SetSlot, Marked, Effect, LooksZero, HasShape, FieldOk, MergedSlot, SlotInRange, RoomFor, Built,
         SlotBuilt;
    if !Emitted(f, s) {
      assert EncodeSlot(f, s) == [];
      assert [] + rest == rest;
    } else if s.Many? {
      ArrayMerged(fields, i, s, now, rest, seen);
    } else {
      TaggedMerged(fields, i, s, now, rest, seen);
    }
  }

  lemma NothingChanges(fields: seq<Field>, now: seq<Slot>, i: nat, s: Slot, seen: set<nat>)
    requires Built(fields, now) && i < |fields| && SlotShaped(fields[i], s) && SlotBuilt(fields[i], now[i])
    ensures !Emitted(fields[i], s) ==> Effect(fields, now, i, s) == now && SeenNext(fields, i, s, seen) == seen
  {
    BuiltSize(fields, now);
    hide LooksZero, HasShape, Built, MergedValue, Reset;
    if !Emitted(fields[i], s) {
      if s.Many? {
        assert now[i].values + Resets(fields[i].kind, []) == now[i].values;
      }
      assert MergedSlot(fields[i], now[i], s) == now[i];
    }
  }

  /** A value reads back as it was into a fresh one. */
  lemma {:induction false} FreshValue(kind: DataType, v: Value, rest: Bytes)
    requires ValueOk(kind, v)
    ensures DecodeValue(kind, EncodeValue(kind, v) + rest, ZeroOf(kind)) == Some(Parsed(Reset(kind, v), rest))
    decreases v, 1
  {
    hide DecodeValue, EncodeValue, ZeroOf, Reset, MergedValue, DescriptorOk, AllInRange, Built, RoomForAll, AllShaped, EncodeAll;
    MergedFresh(kind, v);
    if kind.Submessage? {
      RoomAtDefaults(kind.desc.fields, v.slots);
      ZeroIsDefaults(kind);
    }
    ValueMerged(kind, v, rest, ZeroOf(kind));
  }

  lemma ZeroIsDefaults(kind: DataType)
    requires kind.Submessage?
    ensures ZeroOf(kind) == Record(Defaults(kind.desc.fields))
  {
  }

  // A field with one value.
  lemma {:induction false} TaggedMerged(fields: seq<Field>, i: nat, s: Slot, now: seq<Slot>, rest: Bytes, seen: set<nat>)
    requires DescriptorOk(fields) && Built(fields, now) && i < |fields|
    requires SlotShaped(fields[i], s) && SlotInRange(fields[i], s) && FieldOk(fields[i]) && Emitted(fields[i], s) && !s.Many?
    requires SlotBuilt(fields[i], now[i]) && RoomFor(fields[i], now[i], s)
    ensures |now| == |fields| == |Effect(fields, now, i, s)|
    ensures DecodeFields(fields, EncodeSlot(fields[i], s) + rest, now, seen)
         == DecodeFields(fields, rest, Effect(fields, now, i, s), SeenNext(fields, i, s, seen))
    decreases s, 1
  {
    var f := fields[i];
    var v := if s.Union? then s.chosen.value else s.value;
    BuiltSize(fields, now);
    ValueFits(f, s, v);
    assert EncodeSlot(f, s) == EncodeTagged(f, v);
    EffectSets(fields, now, i, s);
    MarkedOnlyRequired(fields, i, seen);
    assert SeenNext(fields, i, s, seen) == Marked(fields, i, seen);
    SlotValueMerged(f, s, now[i], rest);
    hide DecodeFields, EncodeValue, TagBytes, DescriptorOk, Built, SetSlot, Marked, Effect, ValueOk, FieldOk, MergedSlot, DecodeField, Emitted, SlotShaped,
         SlotBuilt, RoomFor, SlotInRange;
    OneField(fields, i, WireType(f.kind), EncodeValue(f.kind, v) + rest, rest, now, seen, MergedSlot(f, now[i], s));
    Regroup(TagBytes(f.tag, WireType(f.kind)), EncodeValue(f.kind, v), rest);
  }

  lemma ValueFits(f: Field, s: Slot, v: Value)
    requires SlotShaped(f, s) && SlotInRange(f, s) && FieldOk(f) && Emitted(f, s) && !s.Many?
    requires v == if s.Union? then s.chosen.value else s.value
    ensures ValueOk(f.kind, v)
  {
  }

  lemma EffectSets(fields: seq<Field>, now: seq<Slot>, i: nat, s: Slot)
    requires Built(fields, now) && i < |fields| && SlotShaped(fields[i], s) && SlotBuilt(fields[i], now[i]) && Emitted(fields[i], s)
    ensures |now| == |fields|
    ensures SetSlot(fields, now, i, MergedSlot(fields[i], now[i], s)) == Effect(fields, now, i, s)
  {
    hide LooksZero, HasShape, Built, MergedSlot, SlotBuilt;
    BuiltSize(fields, now);
    assert fields[i].rule.OneOf? ==> Chosen(s);
  }

  lemma {:induction false} SlotValueMerged(f: Field, s: Slot, c: Slot, rest: Bytes)
    requires SlotShaped(f, s) && Emitted(f, s) && !s.Many? && SlotBuilt(f, c) && RoomFor(f, c, s)
    requires var v := if s.Union? then s.chosen.value else s.value; ValueOk(f.kind, v)
    ensures var v := if s.Union? then s.chosen.value else s.value;
            DecodeField(f, WireType(f.kind), EncodeValue(f.kind, v) + rest, c) == Some(Parsed(MergedSlot(f, c, s), rest))
    decreases s, 0
  {
    hide EncodeValue, DecodeValue, Reset, HasShape, ZeroOf, LooksZero, MergedValue, ValueBuilt, ValueRoom, InRange;
    match s {
      case One(v) => ValueMerged(f.kind, v, rest, c.value);
      case Maybe(_, v) => ValueMerged(f.kind, v, rest, c.value);
      case Union(chosen) => FreshValue(f.kind, chosen.value, rest);
    }
  }

  /** An element of an array sent by itself, of a kind that can be packed or not. */
  lemma {:induction false} AloneMerged(fields: seq<Field>, i: nat, v: Value, now: seq<Slot>, rest: Bytes, seen: set<nat>)
    requires DescriptorOk(fields) && i < |fields| == |now| && fields[i].rule.Repeated? && now[i].Many?
    requires |now[i].values| < fields[i].rule.max && ValueOk(fields[i].kind, v)
    ensures DecodeFields(fields, EncodeTagged(fields[i], v) + rest, now, seen)
         == DecodeFields(fields, rest, now[i := Many(now[i].values + [Reset(fields[i].kind, v)])], seen)
    decreases v, 2
  {
    var f := fields[i];
    FreshValue(f.kind, v, rest);
    AloneDecoded(f, v, now[i].values, rest);
    RepeatedSet(fields, now, i, Many(now[i].values + [Reset(f.kind, v)]), seen);
    hide DecodeFields, EncodeValue, TagBytes, DescriptorOk, SetSlot, Marked, ValueOk, Reset, DecodeField, HasShape;
    OneField(fields, i, WireType(f.kind), EncodeValue(f.kind, v) + rest, rest, now, seen, Many(now[i].values + [Reset(f.kind, v)]));
    Regroup(TagBytes(f.tag, WireType(f.kind)), EncodeValue(f.kind, v), rest);
  }

  lemma AloneDecoded(f: Field, v: Value, before: seq<Value>, rest: Bytes)
    requires f.rule.Repeated? && |before| < f.rule.max && HasShape(f.kind, v)
    requires DecodeValue(f.kind, EncodeValue(f.kind, v) + rest, ZeroOf(f.kind)) == Some(Parsed(Reset(f.kind, v), rest))
    ensures DecodeField(f, WireType(f.kind), EncodeValue(f.kind, v) + rest, Many(before)) == Some(Parsed(Many(before + [Reset(f.kind, v)]), rest))
  {
    hide EncodeValue, Reset, DecodeValue, HasShape, ZeroOf;
  }

  lemma RepeatedSet(fields: seq<Field>, slots: seq<Slot>, i: nat, s: Slot, seen: set<nat>)
    requires i < |fields| == |slots| && fields[i].rule.Repeated?
    ensures SetSlot(fields, slots, i, s) == slots[i := s] && Marked(fields, i, seen) == seen
  {
  }

  // An array.
  lemma {:induction false} ArrayMerged(fields: seq<Field>, i: nat, s: Slot, now: seq<Slot>, rest: Bytes, seen: set<nat>)
    requires DescriptorOk(fields) && Built(fields, now) && i < |fields|
    requires SlotShaped(fields[i], s) && SlotInRange(fields[i], s) && FieldOk(fields[i]) && s.Many? && s.values != []
    requires SlotBuilt(fields[i], now[i]) && RoomFor(fields[i], now[i], s)
    ensures |now| == |fields| == |Effect(fields, now, i, s)|
    ensures DecodeFields(fields, EncodeSlot(fields[i], s) + rest, now, seen)
         == DecodeFields(fields, rest, Effect(fields, now, i, s), SeenNext(fields, i, s, seen))
    decreases s, 1
  {
    var f, vs := fields[i], s.values;
    BuiltSize(fields, now);
    ItemsFit(f, s, now[i]);
    EffectOnArray(fields, now, i, s);
    assert EncodeSlot(f, s) == EncodeArray(f, vs) && SeenNext(fields, i, s, seen) == seen;
    if Packable(f.kind) {
      PackedMerged(fields, i, vs, now, rest, seen);
    } else {
      assert EncodeArray(f, vs) == EncodeItems(f.kind, vs, TagBytes(f.tag, WireType(f.kind)));
      hide DecodeFields, EncodeItems, EncodeSlot, EncodeArray, TagBytes, DescriptorOk, Built, Effect, ValueOk, FieldOk, HasShape, Resets, SlotShaped, SlotBuilt,
           RoomFor, SlotInRange;
      ItemsMerged(fields, i, s, |vs|, now, rest, seen);
      assert vs[..|vs|] == vs;
    }
  }

  lemma ItemsFit(f: Field, s: Slot, c: Slot)
    requires SlotShaped(f, s) && SlotInRange(f, s) && FieldOk(f) && s.Many? && SlotBuilt(f, c) && RoomFor(f, c, s)
    ensures f.rule.Repeated? && c.Many? && |c.values| + |s.values| <= f.rule.max
    ensures forall k :: 0 <= k < |s.values| ==> HasShape(f.kind, s.values[k]) && ValueOk(f.kind, s.values[k])
    ensures Packable(f.kind) ==> |EncodeItems(f.kind, s.values, [])| < TWO32
  {
  }

  lemma EffectOnArray(fields: seq<Field>, now: seq<Slot>, i: nat, s: Slot)
    requires Built(fields, now) && i < |fields| && SlotShaped(fields[i], s) && s.Many? && SlotBuilt(fields[i], now[i])
    ensures now[i].Many? && Effect(fields, now, i, s) == now[i := Many(now[i].values + Resets(fields[i].kind, s.values))]
  {
    hide HasShape, Built;
    BuiltSize(fields, now);
  }

  /** A packed array: its elements are added to what is there. */
  lemma PackedMerged(fields: seq<Field>, i: nat, vs: seq<Value>, now: seq<Slot>, rest: Bytes, seen: set<nat>)
    requires DescriptorOk(fields) && i < |fields| == |now| && fields[i].rule.Repeated? && now[i].Many? && Packable(fields[i].kind) && vs != []
    requires forall k :: 0 <= k < |vs| ==> HasShape(fields[i].kind, vs[k])
    requires |now[i].values| + |vs| <= fields[i].rule.max && |EncodeItems(fields[i].kind, vs, [])| < TWO32
    ensures DecodeFields(fields, EncodeArray(fields[i], vs) + rest, now, seen)
         == DecodeFields(fields, rest, now[i := Many(now[i].values + Resets(fields[i].kind, vs))], seen)
  {
    var f := fields[i];
    var body := EncodeItems(f.kind, vs, []);
    PackedField(f, vs, now[i].values, rest);
    RepeatedSet(fields, now, i, Many(now[i].values + Resets(f.kind, vs)), seen);
    hide DecodeFields, EncodeItems, TagBytes, DescriptorOk, SetSlot, Marked, DecodeField, HasShape, Resets;
    OneField(fields, i, 2, Varint(|body|) + body + rest, rest, now, seen, Many(now[i].values + Resets(f.kind, vs)));
    Regroup4(TagBytes(f.tag, 2), Varint(|body|), body, rest);
  }

  lemma PackedField(f: Field, vs: seq<Value>, before: seq<Value>, rest: Bytes)
    requires f.rule.Repeated? && |before| + |vs| <= f.rule.max && Packable(f.kind)
    requires forall k :: 0 <= k < |vs| ==> HasShape(f.kind, vs[k])
    requires |EncodeItems(f.kind, vs, [])| < TWO32
    ensures var body := EncodeItems(f.kind, vs, []);
            DecodeField(f, 2, Varint(|body|) + body + rest, Many(before)) == Some(Parsed(Many(before + Resets(f.kind, vs)), rest))
  {
    hide DecodePacked, EncodeItems, StringAt, HasShape;
    var body := EncodeItems(f.kind, vs, []);
    StringBack(body, rest);
    PackedRoundTrip(f.kind, vs, before, f.rule.max);
    NumbersReset(f.kind, vs);
  }

  lemma NumbersReset(kind: DataType, vs: seq<Value>)
    requires !kind.Submessage? && forall k :: 0 <= k < |vs| ==> HasShape(kind, vs[k])
    ensures Resets(kind, vs) == vs
  {
    hide HasShape;
  }

  lemma LastItem(f: Field, vs: seq<Value>, tag: Bytes)
    requires vs != [] && (forall j :: 0 <= j < |vs| ==> HasShape(f.kind, vs[j])) && tag == TagBytes(f.tag, WireType(f.kind))
    ensures var n := |vs| - 1;
            && EncodeItems(f.kind, vs, tag) == EncodeItems(f.kind, vs[..n], tag) + EncodeTagged(f, vs[n])
            && Resets(f.kind, vs) == Resets(f.kind, vs[..n]) + [Reset(f.kind, vs[n])]
  {
    var n := |vs| - 1;
    EncodeItemsLast(f.kind, vs, tag);
    assert EncodeTagged(f, vs[n]) == tag + EncodeValue(f.kind, vs[n]);
    hide EncodeItems, EncodeValue, TagBytes, Reset, HasShape;
    Regroup(EncodeItems(f.kind, vs[..n], tag), tag, EncodeValue(f.kind, vs[n]));
  }

  lemma ResetsSize(kind: DataType, vs: seq<Value>)
    requires forall j :: 0 <= j < |vs| ==> HasShape(kind, vs[j])
    ensures |Resets(kind, vs)| == |vs|
  {
    hide HasShape, Reset;
  }

  // The elements of an array that is not packed.
  lemma {:induction false} ItemsMerged(fields: seq<Field>, i: nat, s: Slot, n: nat, now: seq<Slot>, rest: Bytes, seen: set<nat>)
    requires DescriptorOk(fields) && i < |fields| == |now| && fields[i].rule.Repeated? && now[i].Many? && s.Many? && n <= |s.values|
    requires |now[i].values| + n <= fields[i].rule.max
    requires forall j :: 0 <= j < |s.values| ==> HasShape(fields[i].kind, s.values[j]) && ValueOk(fields[i].kind, s.values[j])
    ensures DecodeFields(fields, EncodeItems(fields[i].kind, s.values[..n], TagBytes(fields[i].tag, WireType(fields[i].kind))) + rest, now, seen)
         == DecodeFields(fields, rest, now[i := Many(now[i].values + Resets(fields[i].kind, s.values[..n]))], seen)
    decreases s, 0, n
  {
    var f, tag := fields[i], TagBytes(fields[i].tag, WireType(fields[i].kind));
    if n == 0 {
      NoItems(f.kind, s.values, tag);
      BesideNothing();
      assert now[i].values + Resets(f.kind, s.values[..0]) == now[i].values;
      assert now[i := Many(now[i].values)] == now;
    } else {
      var vs, v := s.values[..n - 1], s.values[n - 1];
      LastItem(f, s.values[..n], tag);
      assert s.values[..n][..n - 1] == vs && s.values[..n][n - 1] == v;
      hide DecodeFields, EncodeItems, EncodeValue, TagBytes, DescriptorOk, ValueOk, Reset, HasShape, EncodeTagged, Resets;
      var here := now[i := Many(now[i].values + Resets(f.kind, vs))];
      Regroup(EncodeItems(f.kind, vs, tag), EncodeTagged(f, v), rest);
      ItemsMerged(fields, i, s, n - 1, now, EncodeTagged(f, v) + rest, seen);
      ResetsSize(f.kind, vs);
      AloneMerged(fields, i, v, here, rest, seen);
      assert now[i].values + Resets(f.kind, s.values[..n]) == now[i].values + Resets(f.kind, vs) + [Reset(f.kind, v)];
      assert here[i := Many(now[i].values + Resets(f.kind, s.values[..n]))] == now[i := Many(now[i].values + Resets(f.kind, s.values[..n]))];
    }
  }
}
