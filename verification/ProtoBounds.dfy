/** Whatever the bytes, what is decoded stays within its bounds (nanopb: pb_decode.c). */
module ProtoBounds {
  import opened Keys
  import opened Coding
  import opened ProtoTypes
  import opened ProtoDecode

  /** A value fits the memory of its field: numbers their width, strings and texts their buffers, arrays their room, and of a
      oneof one member at most is chosen. */
  predicate Bounded(kind: DataType, v: Value)
    decreases v
  {
    match kind
    case SignedVarint(size) => Width(size) && v.Number? && 0 <= v.n + HalfRange(size) < 2 * HalfRange(size)
    case UnsignedVarint(size) => Width(size) && v.Number? && 0 <= v.n < 2 * HalfRange(size)
    case ZigZag(size) => Width(size) && v.Number? && 0 <= v.n + HalfRange(size) < 2 * HalfRange(size)
    case Fixed32 => v.Number? && 0 <= v.n < TWO32
    case Fixed64 => v.Number? && 0 <= v.n < TWO64
    case Blob(capacity) => v.Data? && |v.data| <= capacity
    case Text(size) => v.Data? && |v.data| < size
    case FixedBlob(size) => v.Data? && |v.data| == size
    case Submessage(desc) => v.Record? && AllBounded(desc.fields, v.slots)
  }

  predicate AllBounded(fields: seq<Field>, slots: seq<Slot>)
    decreases slots
  {
    && |slots| == |fields| && (forall i :: 0 <= i < |fields| ==> SlotBounded(fields[i], slots[i]))
    && forall i, j :: 0 <= i < j < |fields| && fields[i].rule.OneOf? && fields[j].rule == fields[i].rule ==>
         slots[i] == Union(None) || slots[j] == Union(None)
  }

  predicate SlotBounded(f: Field, s: Slot)
    decreases s
  {
    match f.rule
    case Required => s.One? && Bounded(f.kind, s.value)
    case Optional(flag) => (if flag then s.Maybe? else s.One?) && Bounded(f.kind, s.value)
    case Repeated(max) => s.Many? && |s.values| <= max && forall i :: 0 <= i < |s.values| ==> Bounded(f.kind, s.values[i])
    case OneOf(_) => s.Union? && (s.chosen.Some? ==> Bounded(f.kind, s.chosen.value))
  }

  /** Kinds a field can have, with defaults that fit them. */
  predicate Sane(fields: seq<Field>)
    decreases fields
  {
    forall i :: 0 <= i < |fields| ==> SaneField(fields[i])
  }

  predicate SaneField(f: Field)
    decreases f
  {
    && SaneKind(f.kind) && (!f.kind.Submessage? && f.default.Some? ==> Bounded(f.kind, f.default.value))
  }

  predicate SaneKind(kind: DataType)
    decreases kind
  {
    match kind
    case SignedVarint(size) => Width(size)
    case UnsignedVarint(size) => Width(size)
    case ZigZag(size) => Width(size)
    case Text(size) => size > 0
    case Submessage(desc) => Sane(desc.fields)
    case _ => true
  }

  lemma {:induction false} ZeroBounded(kind: DataType)
    requires SaneKind(kind)
    ensures Bounded(kind, ZeroOf(kind))
    decreases kind
  {
    if kind.Submessage? {
      DefaultsBounded(kind.desc.fields);
    }
  }

  lemma {:induction false} DefaultsBounded(fields: seq<Field>)
    requires Sane(fields)
    ensures AllBounded(fields, Defaults(fields))
    decreases fields
  {
    forall i | 0 <= i < |fields| ensures SlotBounded(fields[i], DefaultSlot(fields[i])) {
      DefaultBounded(fields[i]);
    }
    hide SlotBounded;
    forall i | 0 <= i < |fields| && fields[i].rule.OneOf? ensures Defaults(fields)[i] == Union(None) {
      assert Defaults(fields)[i] == DefaultSlot(fields[i]);
    }
  }

  lemma {:induction false} DefaultBounded(f: Field)
    requires SaneField(f)
    ensures SlotBounded(f, DefaultSlot(f))
    decreases f
  {
    ZeroBounded(f.kind);
  }

  // Values.

  lemma SignedBounded(u: nat, half: nat)
    requires half > 0
    ensures 0 <= Signed(u, half) + half < 2 * half
  {
  }

  lemma NumberBounded(kind: DataType, s: Bytes)
    ensures DecodeNumber(kind, s).Some? ==> Bounded(kind, DecodeNumber(kind, s).value.value)
  {
    hide Varint64At, FixedValue, Power;
    match kind
    case Fixed32 =>
      if 4 <= |s| {
        FixedBounded(s[..4], 4);
      }
    case Fixed64 =>
      if 8 <= |s| {
        FixedBounded(s[..8], 8);
      }
    case _ =>
      if Varint64At(s).Some? {
        VarintNumberBounded(kind, Varint64At(s).value.value);
      }
  }

  lemma VarintNumberBounded(kind: DataType, u: Uint64)
    ensures NumberFrom(kind, u).Some? ==> Bounded(kind, NumberFrom(kind, u).value)
  {
    match kind
    case SignedVarint(size) =>
      var n := if size == 8 then Signed(u, HalfRange(8)) else Signed(u % TWO32, HalfRange(4));
      SignedBounded(n % TWO64, HalfRange(size));
    case ZigZag(size) =>
      SignedBounded(UnZigZag(u) % TWO64, HalfRange(size));
    case _ =>
  }

  lemma FixedBounded(s: Bytes, n: nat)
    requires |s| == n && (n == 4 || n == 8)
    ensures FixedValue(s) < if n == 4 then TWO32 else TWO64
  {
    FixedValueBound(s);
    Powers();
  }

  lemma StringBounded(kind: DataType, s: Bytes)
    requires !Packable(kind)
    ensures DecodeString(kind, s).Some? ==> !kind.Submessage? && Bounded(kind, DecodeString(kind, s).value.value)
  {
    hide StringAt;
  }

  lemma {:induction false} PackedBounded(kind: DataType, s: Bytes, vs: seq<Value>, max: nat)
    requires |vs| <= max && forall i :: 0 <= i < |vs| ==> Bounded(kind, vs[i])
    ensures var r := DecodePacked(kind, s, vs, max);
            r.Some? ==> |r.value| <= max && forall i :: 0 <= i < |r.value| ==> Bounded(kind, r.value[i])
    decreases |s|
  {
    hide DecodeNumber, Bounded;
    if s != [] && |vs| < max {
      DecodeNumberShrinks(kind, s);
      NumberBounded(kind, s);
      if DecodeNumber(kind, s).Some? {
        var p := DecodeNumber(kind, s).value;
        PackedBounded(kind, p.rest, vs + [p.value], max);
      }
    }
  }

  // Fields and messages.

  lemma {:induction false} ValueBounded(kind: DataType, s: Bytes, current: Value)
    requires SaneKind(kind) && Bounded(kind, current)
    ensures DecodeValue(kind, s, current).Some? ==> Bounded(kind, DecodeValue(kind, s, current).value.value)
    decreases |s|, 0
  {
    hide DecodeNumber, DecodeString, StringAt, DecodeMessage, AllBounded, Sane;
    if kind.Submessage? {
      StringShrinks(s);
      if StringAt(s).Some? && |current.slots| == |kind.desc.fields| {
        MessageBounded(kind.desc.fields, StringAt(s).value.value, current.slots);
      }
    } else if Packable(kind) {
      NumberBounded(kind, s);
    } else {
      StringBounded(kind, s);
    }
  }

  lemma {:induction false} FieldBounded(f: Field, wire: nat, s: Bytes, slot: Slot)
    requires SaneField(f) && SlotBounded(f, slot)
    ensures DecodeField(f, wire, s, slot).Some? ==> SlotBounded(f, DecodeField(f, wire, s, slot).value.value)
    decreases |s|, 1
  {
    hide DecodeValue, StringAt, DecodePacked, ZeroOf, Bounded;
    ZeroBounded(f.kind);
    match slot
    case One(v) => ValueBounded(f.kind, s, v);
    case Maybe(_, v) => ValueBounded(f.kind, s, v);
    case Union(_) => ValueBounded(f.kind, s, ZeroOf(f.kind));
    case Many(vs) =>
      if wire == 2 && Packable(f.kind) {
        if StringAt(s).Some? {
          PackedBounded(f.kind, StringAt(s).value.value, vs, f.rule.max);
        }
      } else {
        ValueBounded(f.kind, s, ZeroOf(f.kind));
      }
  }

  lemma SetBounded(fields: seq<Field>, slots: seq<Slot>, i: nat, s: Slot)
    requires AllBounded(fields, slots) && i < |fields| && SlotBounded(fields[i], s)
    ensures |slots| == |fields| && AllBounded(fields, SetSlot(fields, slots, i, s))
  {
    var after := SetSlot(fields, slots, i, s);
    NoneBounded();
    hide SlotBounded;
    assert forall k :: 0 <= k < |fields| ==> SlotBounded(fields[k], slots[k]);
    forall k | 0 <= k < |fields| ensures SlotBounded(fields[k], after[k]) {
    }
  }

  lemma NoneBounded()
    ensures forall f: Field :: f.rule.OneOf? ==> SlotBounded(f, Union(None))
  {
  }

  lemma {:induction false} FieldsBounded(fields: seq<Field>, s: Bytes, slots: seq<Slot>, seen: set<nat>)
    requires Sane(fields) && AllBounded(fields, slots)
    ensures |slots| == |fields|
    ensures DecodeFields(fields, s, slots, seen).Some? ==> AllBounded(fields, DecodeFields(fields, s, slots, seen).value.0)
    decreases |s|, 2
  {
    BoundedSize(fields, slots);
    hide DecodeField, TagAt, SetSlot, Marked, SkipField, AllBounded, SaneField;
    if s != [] {
      TagShrinks(s);
      match TagAt(s) {
        case Found(tag, wire, rest) =>
          var i := IndexOf(fields, tag);
          if fields == [] && tag == 0 {
          } else if i == |fields| {
            SkipShrinks(wire, rest);
            if SkipField(wire, rest).Some? {
              FieldsBounded(fields, SkipField(wire, rest).value, slots, seen);
            }
          } else {
            OneBounded(fields, slots, i);
            DecodeFieldShrinks(fields[i], wire, rest, slots[i]);
            FieldBounded(fields[i], wire, rest, slots[i]);
            if DecodeField(fields[i], wire, rest, slots[i]).Some? {
              var p := DecodeField(fields[i], wire, rest, slots[i]).value;
              SetBounded(fields, slots, i, p.value);
              FieldsBounded(fields, p.rest, SetSlot(fields, slots, i, p.value), Marked(fields, i, seen));
            }
          }
        case _ =>
      }
    }
  }

  lemma BoundedSize(fields: seq<Field>, slots: seq<Slot>)
    requires AllBounded(fields, slots)
    ensures |slots| == |fields|
  {
  }

  lemma OneBounded(fields: seq<Field>, slots: seq<Slot>, i: nat)
    requires AllBounded(fields, slots) && i < |fields|
    ensures |slots| == |fields| && SlotBounded(fields[i], slots[i])
  {
  }

  lemma {:induction false} MessageBounded(fields: seq<Field>, s: Bytes, slots: seq<Slot>)
    requires Sane(fields) && AllBounded(fields, slots)
    ensures |slots| == |fields|
    ensures DecodeMessage(fields, s, slots).Some? ==> AllBounded(fields, DecodeMessage(fields, s, slots).value)
    decreases |s|, 3
  {
    hide DecodeFields, AllBounded, Sane;
    FieldsBounded(fields, s, slots, {});
  }

  /** Every string of bytes that is accepted gives a message within its bounds. */
  lemma DecodedBounded(fields: seq<Field>, s: Bytes)
    requires Sane(fields)
    ensures Decode(fields, s).Some? ==> AllBounded(fields, Decode(fields, s).value)
  {
    hide DecodeMessage, AllBounded, Sane, Defaults;
    DefaultsBounded(fields);
    MessageBounded(fields, s, Defaults(fields));
  }
}
