/** What the encoder leaves out for looking like zero, and that nothing is lost where it cannot be mistaken (nanopb:
    pb_encode.c). */
module ProtoZero {
  import opened Keys
  import opened Coding
  import opened ProtoTypes
  import opened ProtoDecode
  import opened ProtoRoundTrip

  // Single values.

  /** A field without a has_ flag that holds a number, a text or a blob is left out if and only if it is zero or empty; one of
      fixed-length bytes, of any length, never is. */
  lemma WritesNothingIff(f: Field, v: Value)
    requires f.rule == Optional(false) && !f.kind.Submessage? && HasShape(f.kind, v)
    ensures EncodeSlot(f, One(v)) == [] <==> v == ZeroOf(f.kind) && (f.kind.FixedBlob? ==> f.kind.size == 0)
  {
    assert TagBytes(f.tag, WireType(f.kind)) != [];
    hide EncodeValue, TagBytes;
    if f.kind.FixedBlob? && f.kind.size == 0 {
      assert Zeros(0) == [] && v.data == [];
    }
  }

  // Messages in which nothing can be mistaken.

  /** No submessage is without a has_ flag, and no field without one has a default of its own, in submessages too. */
  predicate Plain(fields: seq<Field>)
    decreases fields
  {
    forall i :: 0 <= i < |fields| ==> PlainField(fields[i])
  }

  predicate PlainField(f: Field)
    decreases f
  {
    && (f.rule == Optional(false) ==> !f.kind.Submessage? && f.default.None?)
    && (f.kind.Submessage? ==> Plain(f.kind.desc.fields))
  }

  /** A field whose has_ flag says that it is absent holds its default, in submessages too. */
  predicate AbsentAtDefault(fields: seq<Field>, slots: seq<Slot>)
    requires AllShaped(fields, slots)
    decreases slots
  {
    forall i :: 0 <= i < |fields| ==> SlotAbsentAtDefault(fields[i], slots[i])
  }

  predicate SlotAbsentAtDefault(f: Field, s: Slot)
    requires SlotShaped(f, s)
    decreases s
  {
    match s
    case One(v) => ValueAbsentAtDefault(f.kind, v)
    case Maybe(present, v) => if present then ValueAbsentAtDefault(f.kind, v) else v == DefaultOf(f)
    case Many(vs) => forall k :: 0 <= k < |vs| ==> ValueAbsentAtDefault(f.kind, vs[k])
    case Union(chosen) => chosen.Some? ==> ValueAbsentAtDefault(f.kind, chosen.value)
  }

  predicate ValueAbsentAtDefault(kind: DataType, v: Value)
    requires HasShape(kind, v)
    decreases v
  {
    kind.Submessage? ==> AbsentAtDefault(kind.desc.fields, v.slots)
  }

  lemma {:induction false} PlainAtDefault(fields: seq<Field>, slots: seq<Slot>)
    requires AllShaped(fields, slots) && Plain(fields) && AbsentAtDefault(fields, slots)
    ensures AllRestAtDefault(fields, slots)
    decreases slots, 1
  {
    hide SlotShaped, SlotRestAtDefault, SlotAbsentAtDefault, PlainField;
    forall i | 0 <= i < |fields| ensures SlotRestAtDefault(fields[i], slots[i]) {
      assert SlotShaped(fields[i], slots[i]) && PlainField(fields[i]) && SlotAbsentAtDefault(fields[i], slots[i]);
      PlainSlot(fields[i], slots[i]);
    }
  }

  lemma {:induction false} PlainSlot(f: Field, s: Slot)
    requires SlotShaped(f, s) && PlainField(f) && SlotAbsentAtDefault(f, s)
    ensures SlotRestAtDefault(f, s)
    decreases s, 0
  {
    match s
    case One(v) =>
      if !Emitted(f, s) {
        ZeroIsDefault(f, v);
      }
      PlainValue(f, v);
    case Maybe(_, v) =>
      if s.present {
        PlainValue(f, v);
      }
    case Many(vs) =>
      forall k | 0 <= k < |vs| ensures RestAtDefault(f.kind, vs[k]) {
        PlainValue(f, vs[k]);
      }
    case Union(chosen) =>
      if chosen.Some? {
        PlainValue(f, chosen.value);
      }
  }

  lemma ZeroIsDefault(f: Field, v: Value)
    requires f.rule == Optional(false) && PlainField(f) && HasShape(f.kind, v) && LooksZero(f.kind, v)
    ensures v == DefaultOf(f) && DefaultSlot(f) == One(v)
  {
    if f.kind.FixedBlob? {
      assert Zeros(0) == [] && v.data == [];
    }
  }

  lemma {:induction false} PlainValue(f: Field, v: Value)
    requires PlainField(f) && HasShape(f.kind, v) && ValueAbsentAtDefault(f.kind, v)
    ensures RestAtDefault(f.kind, v)
    decreases v, 2
  {
    if f.kind.Submessage? {
      PlainAtDefault(f.kind.desc.fields, v.slots);
    }
  }

  /** For such messages nothing at all is lost. */
  lemma PlainRoundTrip(fields: seq<Field>, slots: seq<Slot>)
    requires DescriptorOk(fields) && AllShaped(fields, slots) && AllInRange(fields, slots)
    requires Plain(fields) && AbsentAtDefault(fields, slots)
    ensures Decode(fields, EncodeAll(fields, slots)) == Some(slots)
  {
    hide DescriptorOk, AllInRange, Plain, AbsentAtDefault, AllRestAtDefault, AllShaped;
    PlainAtDefault(fields, slots);
    RoundTripExact(fields, slots);
  }

  // Submessages.

  /** The single values whose memory the test looks at: all of a message, whatever its has_ flags and which_ tags say, and of
      an array the first element's only. Where no value is held the memory is zero. */
  datatype Read = Held(kind: DataType, value: Value) | Unheld(kind: DataType)

  function ReadsOf(kind: DataType, v: Value): seq<Read>
    requires HasShape(kind, v)
    decreases v, 0
  {
    if kind.Submessage? then AllReads(kind.desc.fields, v.slots, |v.slots|) else [Held(kind, v)]
  }

  function AllReads(fields: seq<Field>, slots: seq<Slot>, n: nat): seq<Read>
    requires AllShaped(fields, slots) && n <= |slots|
    decreases slots, n
  {
    if n == 0 then [] else
    assert SlotShaped(fields[n - 1], slots[n - 1]);
    AllReads(fields, slots, n - 1) + SlotReads(fields[n - 1], slots[n - 1])
  }

  function SlotReads(f: Field, s: Slot): seq<Read>
    requires SlotShaped(f, s)
    decreases s
  {
    match s
    case One(v) => ReadsOf(f.kind, v)
    case Maybe(_, v) => ReadsOf(f.kind, v)
    case Many(vs) => if vs == [] then ZeroReads(f.kind) else ReadsOf(f.kind, vs[0])
    case Union(chosen) => if chosen.None? then ZeroReads(f.kind) else ReadsOf(f.kind, chosen.value)
  }

  function ZeroReads(kind: DataType): seq<Read>
    decreases kind, 0
  {
    if kind.Submessage? then AllZeroReads(kind.desc.fields, |kind.desc.fields|) else [Unheld(kind)]
  }

  function AllZeroReads(fields: seq<Field>, n: nat): seq<Read>
    requires n <= |fields|
    decreases fields, n
  {
    if n == 0 then [] else AllZeroReads(fields, n - 1) + FieldZeroReads(fields[n - 1])
  }

  function FieldZeroReads(f: Field): seq<Read>
    decreases f
  {
    ZeroReads(f.kind)
  }

  /** Numbers are zero, texts and blobs empty, and fixed-length bytes of no length. */
  predicate ReadsZero(r: Read) {
    if r.kind.FixedBlob? then r.kind.size == 0 else r.Held? ==> r.value == Number(0) || r.value == Data([])
  }

  predicate AllReadZero(rs: seq<Read>) {
    forall k :: 0 <= k < |rs| ==> ReadsZero(rs[k])
  }

  lemma BothReadZero(a: seq<Read>, b: seq<Read>)
    ensures AllReadZero(a + b) <==> AllReadZero(a) && AllReadZero(b)
  {
    hide ReadsZero;
    assert forall k :: 0 <= k < |a| ==> (a + b)[k] == a[k];
    assert forall k :: 0 <= k < |b| ==> (a + b)[|a| + k] == b[k];
  }

  lemma FewReads(r: Read)
    ensures AllReadZero([]) && (AllReadZero([r]) <==> ReadsZero(r))
  {
    hide ReadsZero;
    assert [r][0] == r;
  }

  lemma {:induction false} ZeroMemoryIff(kind: DataType)
    ensures ZeroMemory(kind) <==> AllReadZero(ZeroReads(kind))
    decreases kind, 0
  {
    if kind.Submessage? {
      AllZeroMemoryIff(kind.desc.fields, |kind.desc.fields|);
    } else {
      FewReads(Unheld(kind));
    }
  }

  lemma {:induction false} AllZeroMemoryIff(fields: seq<Field>, n: nat)
    requires n <= |fields|
    ensures (forall i :: 0 <= i < n ==> ZeroMemory(fields[i].kind)) <==> AllReadZero(AllZeroReads(fields, n))
    decreases fields, n
  {
    if n == 0 {
      FewReads(Unheld(Fixed32));
    } else {
      hide ZeroMemory, AllReadZero, ZeroReads;
      FieldZeroMemoryIff(fields[n - 1]);
      AllZeroMemoryIff(fields, n - 1);
      BothReadZero(AllZeroReads(fields, n - 1), FieldZeroReads(fields[n - 1]));
    }
  }

  lemma {:induction false} FieldZeroMemoryIff(f: Field)
    ensures ZeroMemory(f.kind) <==> AllReadZero(FieldZeroReads(f))
    decreases f
  {
    hide ZeroMemory, AllReadZero, ZeroReads;
    ZeroMemoryIff(f.kind);
  }

  /** A value is taken for zero if and only if all that is looked at is. */
  lemma {:induction false} LooksZeroIff(kind: DataType, v: Value)
    requires HasShape(kind, v)
    ensures LooksZero(kind, v) <==> AllReadZero(ReadsOf(kind, v))
    decreases v, 0
  {
    if kind.Submessage? {
      SlotsLookZeroIff(kind.desc.fields, v.slots, |v.slots|);
      hide SlotLooksZero, AllReadZero, AllReads;
    } else {
      FewReads(Held(kind, v));
    }
  }

  lemma {:induction false} SlotsLookZeroIff(fields: seq<Field>, slots: seq<Slot>, n: nat)
    requires AllShaped(fields, slots) && n <= |slots|
    ensures (forall i :: 0 <= i < n ==> SlotShaped(fields[i], slots[i]) && SlotLooksZero(fields[i], slots[i])) <==> AllReadZero(AllReads(fields, slots, n))
    decreases slots, n
  {
    hide SlotShaped, SlotLooksZero, SlotReads, AllReadZero;
    if n == 0 {
      FewReads(Unheld(Fixed32));
    } else {
      assert SlotShaped(fields[n - 1], slots[n - 1]);
      SlotsLookZeroIff(fields, slots, n - 1);
      SlotLooksZeroIff(fields[n - 1], slots[n - 1]);
      BothReadZero(AllReads(fields, slots, n - 1), SlotReads(fields[n - 1], slots[n - 1]));
    }
  }

  lemma {:induction false} SlotLooksZeroIff(f: Field, s: Slot)
    requires SlotShaped(f, s)
    ensures SlotLooksZero(f, s) <==> AllReadZero(SlotReads(f, s))
    decreases s, 0
  {
    hide ZeroMemory, LooksZero, HasShape, AllReadZero, ReadsOf, ZeroReads;
    match s
    case One(v) => LooksZeroIff(f.kind, v);
    case Maybe(_, v) => LooksZeroIff(f.kind, v);
    case Many(vs) =>
      if vs == [] {
        ZeroMemoryIff(f.kind);
      } else {
        LooksZeroIff(f.kind, vs[0]);
      }
    case Union(chosen) =>
      if chosen.None? {
        ZeroMemoryIff(f.kind);
      } else {
        LooksZeroIff(f.kind, chosen.value);
      }
  }
}
