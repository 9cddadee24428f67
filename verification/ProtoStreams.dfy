/** Messages as streams of parts: what decoding makes of any parts in any order, and what follows for repeated fields, oneofs,
    arrays sent in pieces, required fields and messages one after another (nanopb: pb_decode.c). */
module ProtoStreams {
  import opened Keys
  import opened Coding
  import opened ProtoTypes
  import opened ProtoDecode
  import opened ProtoValues
  import opened ProtoParts

  /** What the encoder writes for a slot, a single element of an array, or an unknown field. */
  datatype Part = Written(i: nat, s: Slot) | Alone(i: nat, v: Value) | Other(u: Unknown)

  ghost predicate PartOk(fields: seq<Field>, p: Part) {
    match p
    case Written(i, s) => i < |fields| && SlotShaped(fields[i], s) && SlotInRange(fields[i], s)
    case Alone(i, v) => i < |fields| && fields[i].rule.Repeated? && ValueOk(fields[i].kind, v)
    case Other(u) => WellFormed(fields, u)
  }

  ghost predicate Fits(fields: seq<Field>, now: seq<Slot>, p: Part)
    requires Built(fields, now) && PartOk(fields, p)
  {
    match p
    case Written(i, s) => RoomFor(fields[i], now[i], s)
    case Alone(i, _) => assert SlotBuilt(fields[i], now[i]); |now[i].values| < fields[i].rule.max
    case Other(_) => true
  }

  ghost function PartBytes(fields: seq<Field>, p: Part): Bytes
    requires PartOk(fields, p)
  {
    match p
    case Written(i, s) => EncodeSlot(fields[i], s)
    case Alone(i, v) => EncodeTagged(fields[i], v)
    case Other(u) => TagBytes(u.tag, u.wire) + u.payload
  }

  ghost function AfterPart(fields: seq<Field>, now: seq<Slot>, p: Part): seq<Slot>
    requires Built(fields, now) && PartOk(fields, p)
  {
    match p
    case Written(i, s) => Effect(fields, now, i, s)
    case Alone(i, v) => assert SlotBuilt(fields[i], now[i]); now[i := Many(now[i].values + [Reset(fields[i].kind, v)])]
    case Other(_) => now
  }

  ghost function SeenAfterPart(fields: seq<Field>, p: Part, seen: set<nat>): set<nat>
    requires PartOk(fields, p)
  {
    if p.Written? then SeenNext(fields, p.i, p.s, seen) else seen
  }

  ghost predicate AllOk(fields: seq<Field>, ps: seq<Part>) {
    forall k :: 0 <= k < |ps| ==> PartOk(fields, ps[k])
  }

  lemma AfterBuilt(fields: seq<Field>, now: seq<Slot>, p: Part)
    requires Built(fields, now) && PartOk(fields, p)
    ensures Built(fields, AfterPart(fields, now, p))
  {
    match p
    case Written(i, s) => EffectBuilt(fields, now, i, s);
    case Alone(i, v) =>
      hide SlotShaped;
      var after := AfterPart(fields, now, p);
      forall k | 0 <= k < |fields| ensures SlotBuilt(fields[k], after[k]) {
        assert SlotBuilt(fields[k], now[k]);
      }
    case Other(_) =>
  }

  // Streams.

  ghost function StreamOf(fields: seq<Field>, ps: seq<Part>): Bytes
    requires AllOk(fields, ps)
  {
    if ps == [] then [] else PartBytes(fields, ps[0]) + StreamOf(fields, ps[1..])
  }

  ghost function After(fields: seq<Field>, now: seq<Slot>, ps: seq<Part>): (r: seq<Slot>)
    requires Built(fields, now) && AllOk(fields, ps)
    ensures Built(fields, r)
    decreases |ps|
  {
    if ps == [] then now else AfterBuilt(fields, now, ps[0]); After(fields, AfterPart(fields, now, ps[0]), ps[1..])
  }

  ghost function SeenAfter(fields: seq<Field>, ps: seq<Part>, seen: set<nat>): set<nat>
    requires AllOk(fields, ps)
    decreases |ps|
  {
    if ps == [] then seen else SeenAfter(fields, ps[1..], SeenAfterPart(fields, ps[0], seen))
  }

  ghost predicate AllFit(fields: seq<Field>, now: seq<Slot>, ps: seq<Part>)
    requires Built(fields, now) && AllOk(fields, ps)
    decreases |ps|
  {
    ps == [] || (Fits(fields, now, ps[0]) && (AfterBuilt(fields, now, ps[0]); AllFit(fields, AfterPart(fields, now, ps[0]), ps[1..])))
  }

  lemma PartDecoded(fields: seq<Field>, p: Part, now: seq<Slot>, rest: Bytes, seen: set<nat>)
    requires DescriptorOk(fields) && Built(fields, now) && PartOk(fields, p) && Fits(fields, now, p)
    ensures |now| == |fields| == |AfterPart(fields, now, p)|
    ensures DecodeFields(fields, PartBytes(fields, p) + rest, now, seen)
         == DecodeFields(fields, rest, AfterPart(fields, now, p), SeenAfterPart(fields, p, seen))
  {
    BuiltSize(fields, now);
    match p
    case Written(i, s) =>
      FieldIsOk(fields, i);
      SlotIsBuilt(fields, now, i);
      hide DecodeFields, DescriptorOk, FieldOk, SlotShaped, SlotInRange, EncodeSlot, Built, SlotBuilt, Effect, RoomFor, SeenNext;
      SlotMerged(fields, i, s, now, rest, seen);
    case Alone(i, v) =>
      SlotIsBuilt(fields, now, i);
      hide DecodeFields, DescriptorOk, ValueOk, EncodeTagged, Built, Reset;
      AloneMerged(fields, i, v, now, rest, seen);
    case Other(u) =>
      UnknownAt(fields, u);
      SkipBack(fields, u, rest);
      hide DecodeFields, DescriptorOk, SkipField, TagBytes, Built, WellFormed;
      Regroup(TagBytes(u.tag, u.wire), u.payload, rest);
      OneUnknown(fields, u.tag, u.wire, u.payload + rest, rest, now, seen);
  }

  lemma FieldIsOk(fields: seq<Field>, i: nat)
    requires DescriptorOk(fields) && i < |fields|
    ensures FieldOk(fields[i])
  {
  }

  lemma SlotIsBuilt(fields: seq<Field>, now: seq<Slot>, i: nat)
    requires Built(fields, now) && i < |fields|
    ensures |now| == |fields| && SlotBuilt(fields[i], now[i])
  {
  }

  /** Parts in any order are decoded one after another. */
  lemma {:induction false} StreamDecoded(fields: seq<Field>, ps: seq<Part>, now: seq<Slot>, rest: Bytes, seen: set<nat>)
    requires DescriptorOk(fields) && Built(fields, now) && AllOk(fields, ps) && AllFit(fields, now, ps)
    ensures |now| == |fields| == |After(fields, now, ps)|
    ensures DecodeFields(fields, StreamOf(fields, ps) + rest, now, seen)
         == DecodeFields(fields, rest, After(fields, now, ps), SeenAfter(fields, ps, seen))
    decreases |ps|
  {
    hide DecodeFields, DescriptorOk, Built, PartBytes, AfterPart, SeenAfterPart, PartOk, Fits;
    BuiltSize(fields, now);
    if ps == [] {
      assert [] + rest == rest;
    } else {
      AfterBuilt(fields, now, ps[0]);
      PartDecoded(fields, ps[0], now, StreamOf(fields, ps[1..]) + rest, seen);
      StreamDecoded(fields, ps[1..], AfterPart(fields, now, ps[0]), rest, SeenAfterPart(fields, ps[0], seen));
      Regroup(PartBytes(fields, ps[0]), StreamOf(fields, ps[1..]), rest);
    }
  }

  // Required fields.

  ghost predicate Occurs(ps: seq<Part>, i: nat) {
    exists k :: 0 <= k < |ps| && ps[k].Written? && ps[k].i == i
  }

  /** Every required field is among the parts. */
  ghost predicate NoneMissing(fields: seq<Field>, ps: seq<Part>) {
    forall i :: 0 <= i < |fields| && fields[i].rule.Required? ==> Occurs(ps, i)
  }

  lemma {:induction false} SeenIs(fields: seq<Field>, ps: seq<Part>, seen: set<nat>, r: nat)
    requires AllOk(fields, ps) && DescriptorOk(fields)
    ensures r in SeenAfter(fields, ps, seen) <==>
              r in seen || exists i :: 0 <= i < |fields| && fields[i].rule.Required? && RequiredBefore(fields, i) == r && Occurs(ps, i)
    decreases |ps|
  {
    if ps != [] {
      var p := ps[0];
      assert PartOk(fields, p);
      SeenIs(fields, ps[1..], SeenAfterPart(fields, p, seen), r);
      forall i ensures Occurs(ps, i) <==> (p.Written? && p.i == i) || Occurs(ps[1..], i) {
        OccursFirst(ps, i);
      }
      hide DescriptorOk, PartOk, Occurs;
      SeenPart(fields, p, seen, r);
    }
  }

  lemma OccursFirst(ps: seq<Part>, i: nat)
    requires ps != []
    ensures Occurs(ps, i) <==> (ps[0].Written? && ps[0].i == i) || Occurs(ps[1..], i)
  {
    if Occurs(ps[1..], i) {
      var k :| 0 <= k < |ps[1..]| && ps[1..][k].Written? && ps[1..][k].i == i;
      assert ps[k + 1].Written? && ps[k + 1].i == i;
    }
    if Occurs(ps, i) {
      var k :| 0 <= k < |ps| && ps[k].Written? && ps[k].i == i;
      assert k > 0 ==> ps[1..][k - 1] == ps[k];
    }
  }

  lemma SeenPart(fields: seq<Field>, p: Part, seen: set<nat>, r: nat)
    requires PartOk(fields, p) && DescriptorOk(fields)
    ensures r in SeenAfterPart(fields, p, seen) <==>
              r in seen || (p.Written? && fields[p.i].rule.Required? && RequiredBefore(fields, p.i) == r)
  {
    if p.Written? {
      RequiredGrows(fields, p.i, |fields|);
      if fields[p.i].rule.Required? {
        RequiredGrows(fields, p.i + 1, |fields|);
      }
      hide HasShape;
    }
  }

  lemma {:induction false} RequiredAt(fields: seq<Field>, n: nat, r: nat) returns (i: nat)
    requires n <= |fields| && r < RequiredBefore(fields, n)
    ensures i < n && fields[i].rule.Required? && RequiredBefore(fields, i) == r
  {
    if r < RequiredBefore(fields, n - 1) {
      i := RequiredAt(fields, n - 1, r);
    } else {
      i := n - 1;
    }
  }

  lemma OneRequired(fields: seq<Field>, i: nat, j: nat)
    requires i < |fields| && j < |fields| && fields[i].rule.Required? && fields[j].rule.Required?
    requires RequiredBefore(fields, i) == RequiredBefore(fields, j)
    ensures i == j
  {
    RequiredMore(fields, i, j);
    RequiredMore(fields, j, i);
  }

  lemma RequiredMore(fields: seq<Field>, i: nat, j: nat)
    requires i < |fields| && j < |fields| && fields[i].rule.Required?
    ensures i < j ==> RequiredBefore(fields, i) < RequiredBefore(fields, j)
  {
    if i < j {
      RequiredGrows(fields, i + 1, j);
    }
  }

  lemma AllSeenIs(fields: seq<Field>, ps: seq<Part>)
    requires DescriptorOk(fields) && AllOk(fields, ps)
    ensures AllSeen(fields, SeenAfter(fields, ps, {})) <==> NoneMissing(fields, ps)
  {
    var seen := SeenAfter(fields, ps, {});
    hide DescriptorOk, AllOk, SeenAfter, Occurs;
    forall r: nat | r < RequiredBefore(fields, |fields|)
      ensures r in seen <==> exists i :: 0 <= i < |fields| && fields[i].rule.Required? && RequiredBefore(fields, i) == r && Occurs(ps, i)
    {
      SeenIs(fields, ps, {}, r);
    }
    forall i: nat | i < |fields| && fields[i].rule.Required? ensures RequiredBefore(fields, i) < RequiredBefore(fields, |fields|) {
      RequiredGrows(fields, i + 1, |fields|);
    }
    if AllSeen(fields, seen) {
      forall i: nat | i < |fields| && fields[i].rule.Required? ensures Occurs(ps, i) {
        assert RequiredBefore(fields, i) in seen;
        var j :| 0 <= j < |fields| && fields[j].rule.Required? && RequiredBefore(fields, j) == RequiredBefore(fields, i) && Occurs(ps, j);
        OneRequired(fields, i, j);
      }
    }
    if NoneMissing(fields, ps) {
      forall r | 0 <= r < RequiredBefore(fields, |fields|) ensures r in seen {
        var i := RequiredAt(fields, |fields|, r);
        assert Occurs(ps, i);
      }
    }
  }

  /** Decoding a stream of parts succeeds exactly when no required field is missing, and gives what the parts make of the
      defaults one after another. */
  lemma DecodeStream(fields: seq<Field>, ps: seq<Part>)
    requires DescriptorOk(fields) && AllOk(fields, ps) && Built(fields, Defaults(fields)) && AllFit(fields, Defaults(fields), ps)
    ensures Decode(fields, StreamOf(fields, ps)) == if NoneMissing(fields, ps) then Some(After(fields, Defaults(fields), ps)) else None
  {
    var s := StreamOf(fields, ps);
    hide DecodeFields, DescriptorOk, AllOk, AllFit, StreamOf, NoneMissing, AllSeen, Built, Defaults;
    BuiltSize(fields, Defaults(fields));
    StreamDecoded(fields, ps, Defaults(fields), [], {});
    assert s + [] == s;
    DecodeNothing(fields, After(fields, Defaults(fields), ps), SeenAfter(fields, ps, {}));
    AllSeenIs(fields, ps);
  }

  // Unknown fields.

  /** The parts that are fields of the message. */
  ghost function Known(ps: seq<Part>): seq<Part> {
    if ps == [] then [] else (if ps[0].Other? then [] else [ps[0]]) + Known(ps[1..])
  }

  lemma {:induction false} KnownOk(fields: seq<Field>, ps: seq<Part>)
    requires AllOk(fields, ps)
    ensures AllOk(fields, Known(ps)) && NoneMissing(fields, Known(ps)) == NoneMissing(fields, ps)
    ensures forall i :: Occurs(Known(ps), i) <==> Occurs(ps, i)
  {
    hide PartOk;
    if ps != [] {
      KnownOk(fields, ps[1..]);
      var known := Known(ps);
      forall i ensures Occurs(known, i) <==> Occurs(ps, i) {
        OccursFirst(ps, i);
        if !ps[0].Other? {
          assert known == [ps[0]] + Known(ps[1..]) && known[1..] == Known(ps[1..]);
          OccursFirst(known, i);
        } else {
          assert known == Known(ps[1..]);
        }
      }
    }
  }

  lemma {:induction false} KnownAfter(fields: seq<Field>, ps: seq<Part>, now: seq<Slot>)
    requires Built(fields, now) && AllOk(fields, ps) && AllOk(fields, Known(ps))
    ensures After(fields, now, Known(ps)) == After(fields, now, ps) && AllFit(fields, now, Known(ps)) == AllFit(fields, now, ps)
    decreases |ps|
  {
    hide PartOk, Built, Effect, RoomFor;
    if ps != [] {
      AfterBuilt(fields, now, ps[0]);
      var known, rest := Known(ps), Known(ps[1..]);
      if ps[0].Other? {
        assert known == rest;
      } else {
        assert known[0] == ps[0] && known[1..] == rest;
      }
      assert AllOk(fields, rest);
      KnownAfter(fields, ps[1..], AfterPart(fields, now, ps[0]));
    }
  }

  /** Unknown fields, wherever they stand in a stream, do not change what is decoded. */
  lemma UnknownFieldsIgnored(fields: seq<Field>, ps: seq<Part>)
    requires DescriptorOk(fields) && AllOk(fields, ps) && Built(fields, Defaults(fields)) && AllFit(fields, Defaults(fields), ps)
    ensures AllOk(fields, Known(ps)) && Decode(fields, StreamOf(fields, ps)) == Decode(fields, StreamOf(fields, Known(ps)))
  {
    KnownOk(fields, ps);
    hide AllOk, Built, Defaults, Decode, NoneMissing, StreamOf;
    KnownAfter(fields, ps, Defaults(fields));
    DecodeStream(fields, ps);
    DecodeStream(fields, Known(ps));
  }

  // The last one wins.

  /** No part says anything about field k. */
  ghost predicate Untouched(fields: seq<Field>, ps: seq<Part>, k: nat)
    requires k < |fields| && AllOk(fields, ps)
  {
    forall n :: 0 <= n < |ps| ==> LeavesAlone(fields, ps[n], k)
  }

  ghost predicate LeavesAlone(fields: seq<Field>, p: Part, k: nat)
    requires k < |fields| && PartOk(fields, p)
  {
    match p
    case Written(i, s) => i != k && !(Chosen(s) && SameOneOf(fields[i], fields[k]))
    case Alone(i, _) => i != k
    case Other(_) => true
  }

  lemma {:induction false} UntouchedStays(fields: seq<Field>, ps: seq<Part>, now: seq<Slot>, k: nat)
    requires Built(fields, now) && AllOk(fields, ps) && k < |fields| && Untouched(fields, ps, k)
    ensures |After(fields, now, ps)| == |now| == |fields| && After(fields, now, ps)[k] == now[k]
    decreases |ps|
  {
    hide PartOk;
    if ps != [] {
      AfterBuilt(fields, now, ps[0]);
      assert LeavesAlone(fields, ps[0], k);
      UntouchedStays(fields, ps[1..], AfterPart(fields, now, ps[0]), k);
    }
  }

  lemma {:induction false} AfterBoth(fields: seq<Field>, a: seq<Part>, b: seq<Part>, now: seq<Slot>)
    requires Built(fields, now) && AllOk(fields, a) && AllOk(fields, b)
    ensures AllOk(fields, a + b) && After(fields, now, a + b) == After(fields, After(fields, now, a), b)
    decreases |a|
  {
    hide PartOk, Built;
    if a == [] {
      assert a + b == b;
    } else {
      AfterBuilt(fields, now, a[0]);
      assert (a + b)[0] == a[0] && (a + b)[1..] == a[1..] + b;
      AfterBoth(fields, a[1..], b, AfterPart(fields, now, a[0]));
      assert forall k :: 0 <= k < |a + b| ==> PartOk(fields, (a + b)[k]);
    }
  }

  /** A part that nothing later touches is merged into what the parts before it have made: a number or a string takes the
      place of an earlier one, a submessage is merged. Of the members of a oneof the last to be received is left. */
  lemma LastWins(fields: seq<Field>, before: seq<Part>, i: nat, s: Slot, later: seq<Part>, now: seq<Slot>)
    requires Built(fields, now) && AllOk(fields, before) && AllOk(fields, later) && PartOk(fields, Written(i, s))
    requires Untouched(fields, later, i)
    requires Chosen(s) ==> forall k :: 0 <= k < |fields| && SameOneOf(fields[i], fields[k]) ==> Untouched(fields, later, k)
    ensures var all, earlier := before + [Written(i, s)] + later, After(fields, now, before);
            && AllOk(fields, all) && |earlier| == |After(fields, now, all)| == |fields| && SlotBuilt(fields[i], earlier[i])
            && After(fields, now, all)[i] == MergedSlot(fields[i], earlier[i], s)
            && (Chosen(s) ==> forall k :: 0 <= k < |fields| && k != i && SameOneOf(fields[i], fields[k]) ==> After(fields, now, all)[k] == Union(None))
  {
    var one := [Written(i, s)];
    var earlier := After(fields, now, before);
    BuiltSize(fields, earlier);
    SlotIsBuilt(fields, earlier, i);
    hide PartOk, Built, Untouched, MergedSlot, SlotBuilt;
    AfterBoth(fields, before, one, now);
    AfterBoth(fields, before + one, later, now);
    var middle := After(fields, now, before + one);
    OneAfter(fields, earlier, i, s);
    UntouchedStays(fields, later, middle, i);
    if Chosen(s) {
      forall k | 0 <= k < |fields| && k != i && SameOneOf(fields[i], fields[k])
        ensures After(fields, middle, later)[k] == Union(None)
      {
        UntouchedStays(fields, later, middle, k);
      }
    }
  }

  lemma OneAfter(fields: seq<Field>, now: seq<Slot>, i: nat, s: Slot)
    requires Built(fields, now) && PartOk(fields, Written(i, s))
    ensures AllOk(fields, [Written(i, s)]) && After(fields, now, [Written(i, s)]) == Effect(fields, now, i, s)
  {
    hide Effect;
    EffectBuilt(fields, now, i, s);
    assert [Written(i, s)][1..] == [];
  }

  // Arrays in pieces.

  /** A piece of the array of a field: some elements packed together, or one by itself. */
  ghost predicate PieceOf(fields: seq<Field>, i: nat, p: Part)
    requires i < |fields|
  {
    PartOk(fields, p) && !p.Other? && p.i == i && fields[i].rule.Repeated? && (p.Written? ==> Packable(fields[i].kind))
  }

  function Elements(p: Part): seq<Value> {
    match p
    case Written(_, s) => if s.Many? then s.values else []
    case Alone(_, v) => [v]
    case Other(_) => []
  }

  function AllElements(ps: seq<Part>): seq<Value> {
    if ps == [] then [] else Elements(ps[0]) + AllElements(ps[1..])
  }

  lemma ElementsFit(fields: seq<Field>, i: nat, p: Part)
    requires i < |fields| && PieceOf(fields, i, p)
    ensures forall k :: 0 <= k < |Elements(p)| ==> HasShape(fields[i].kind, Elements(p)[k])
    ensures p.Written? ==> p.s.Many? && |EncodeItems(fields[i].kind, p.s.values, [])| < TWO32 && Emitted(fields[i], p.s) == (p.s.values != [])
  {
  }

  lemma {:induction false} AllElementsFit(fields: seq<Field>, i: nat, ps: seq<Part>)
    requires i < |fields| && forall k :: 0 <= k < |ps| ==> PieceOf(fields, i, ps[k])
    ensures forall k :: 0 <= k < |AllElements(ps)| ==> HasShape(fields[i].kind, AllElements(ps)[k])
  {
    hide PieceOf, HasShape;
    if ps != [] {
      ElementsFit(fields, i, ps[0]);
      AllElementsFit(fields, i, ps[1..]);
    }
  }

  lemma FieldFails(fields: seq<Field>, i: nat, wire: nat, payload: Bytes, slots: seq<Slot>, seen: set<nat>)
    requires DescriptorOk(fields) && i < |fields| == |slots| && wire < 8
    requires DecodeField(fields[i], wire, payload, slots[i]) == None
    ensures DecodeFields(fields, TagBytes(fields[i].tag, wire) + payload, slots, seen) == None
  {
    FieldIsOk(fields, i);
    hide DecodeField, TagAt, TagBytes, SetSlot, Marked, SkipField;
    TagRoundTrip(fields[i].tag, wire, payload);
    IndexOfTag(fields, i);
    var stream := TagBytes(fields[i].tag, wire) + payload;
    assert stream != [];
  }

  lemma {:induction false} PackedTooMany(kind: DataType, vs: seq<Value>, before: seq<Value>, max: nat)
    requires Packable(kind) && (forall i :: 0 <= i < |vs| ==> HasShape(kind, vs[i])) && |before| <= max < |before| + |vs|
    ensures DecodePacked(kind, EncodeItems(kind, vs, []), before, max) == None
    decreases |vs|
  {
    hide EncodeValue, HasShape, DecodeNumber;
    var rest := EncodeItems(kind, vs[1..], []);
    EncodeItemsFirst(kind, vs, []);
    assert [] + EncodeValue(kind, vs[0]) + rest == EncodeValue(kind, vs[0]) + rest;
    EncodedNumberNotEmpty(kind, vs[0]);
    if |before| < max {
      NumberRoundTrip(kind, vs[0], rest);
      PackedTooMany(kind, vs[1..], before + [vs[0]], max);
    }
  }

  /** A piece is added at the end of the array while there is room, and is an error when there is not. */
  lemma OnePiece(fields: seq<Field>, i: nat, p: Part, now: seq<Slot>, rest: Bytes, seen: set<nat>)
    requires DescriptorOk(fields) && i < |fields| == |now| && PieceOf(fields, i, p) && now[i].Many? && |now[i].values| <= fields[i].rule.max
    ensures forall k :: 0 <= k < |Elements(p)| ==> HasShape(fields[i].kind, Elements(p)[k])
    ensures DecodeFields(fields, PartBytes(fields, p) + rest, now, seen)
         == if |now[i].values| + |Elements(p)| <= fields[i].rule.max
            then DecodeFields(fields, rest, now[i := Many(now[i].values + Resets(fields[i].kind, Elements(p)))], seen) else None
  {
    ElementsFit(fields, i, p);
    if p.Alone? {
      LonePiece(fields, i, p.v, now, rest, seen);
    } else {
      PackedPiece(fields, i, p.s, now, rest, seen);
    }
  }

  lemma LonePiece(fields: seq<Field>, i: nat, v: Value, now: seq<Slot>, rest: Bytes, seen: set<nat>)
    requires DescriptorOk(fields) && i < |fields| == |now| && PieceOf(fields, i, Alone(i, v)) && now[i].Many? && HasShape(fields[i].kind, v)
    ensures DecodeFields(fields, EncodeTagged(fields[i], v) + rest, now, seen)
         == if |now[i].values| + 1 <= fields[i].rule.max
            then DecodeFields(fields, rest, now[i := Many(now[i].values + Resets(fields[i].kind, [v]))], seen) else None
  {
    var f := fields[i];
    assert Resets(f.kind, [v]) == [Reset(f.kind, v)];
    if |now[i].values| < f.rule.max {
      hide DecodeFields, DescriptorOk, ValueOk, EncodeTagged, Reset;
      AloneMerged(fields, i, v, now, rest, seen);
    } else {
      var payload := EncodeValue(f.kind, v) + rest;
      assert DecodeField(f, WireType(f.kind), payload, now[i]) == None;
      assert EncodeTagged(f, v) == TagBytes(f.tag, WireType(f.kind)) + EncodeValue(f.kind, v);
      hide DecodeFields, DescriptorOk, TagBytes, EncodeValue, DecodeField, HasShape, EncodeTagged;
      Regroup(TagBytes(f.tag, WireType(f.kind)), EncodeValue(f.kind, v), rest);
      FieldFails(fields, i, WireType(f.kind), payload, now, seen);
    }
  }

  lemma PackedPiece(fields: seq<Field>, i: nat, s: Slot, now: seq<Slot>, rest: Bytes, seen: set<nat>)
    requires DescriptorOk(fields) && i < |fields| == |now| && PieceOf(fields, i, Written(i, s)) && now[i].Many? && s.Many?
    requires |now[i].values| <= fields[i].rule.max && |EncodeItems(fields[i].kind, s.values, [])| < TWO32
    ensures DecodeFields(fields, EncodeSlot(fields[i], s) + rest, now, seen)
         == if |now[i].values| + |s.values| <= fields[i].rule.max
            then DecodeFields(fields, rest, now[i := Many(now[i].values + Resets(fields[i].kind, s.values))], seen) else None
  {
    var f, vs := fields[i], s.values;
    assert EncodeSlot(f, s) == EncodeArray(f, vs);
    if vs == [] {
      assert [] + rest == rest;
      assert now[i].values + Resets(f.kind, vs) == now[i].values && now[i := Many(now[i].values)] == now;
    } else if |now[i].values| + |vs| <= f.rule.max {
      hide DecodeFields, DescriptorOk, EncodeArray, EncodeItems, HasShape;
      PackedMerged(fields, i, vs, now, rest, seen);
    } else {
      var body := EncodeItems(f.kind, vs, []);
      PackedTooMany(f.kind, vs, now[i].values, f.rule.max);
      StringBack(body, rest);
      assert DecodeField(f, 2, Varint(|body|) + body + rest, now[i]) == None;
      assert EncodeArray(f, vs) == TagBytes(f.tag, 2) + Varint(|body|) + body;
      hide DecodeFields, DescriptorOk, TagBytes, Varint, DecodeField, HasShape, EncodeArray, EncodeItems;
      Regroup4(TagBytes(f.tag, 2), Varint(|body|), body, rest);
      FieldFails(fields, i, 2, Varint(|body|) + body + rest, now, seen);
    }
  }

  /** An array sent in any pieces, packed or not, is the elements of the pieces in order, if there is room for all of them, and
      an error if there is not. */
  lemma {:induction false} ArrayInPieces(fields: seq<Field>, i: nat, ps: seq<Part>, now: seq<Slot>, rest: Bytes, seen: set<nat>)
    requires DescriptorOk(fields) && i < |fields| == |now| && now[i].Many? && fields[i].rule.Repeated? && |now[i].values| <= fields[i].rule.max
    requires AllOk(fields, ps) && forall k :: 0 <= k < |ps| ==> PieceOf(fields, i, ps[k])
    ensures forall k :: 0 <= k < |AllElements(ps)| ==> HasShape(fields[i].kind, AllElements(ps)[k])
    ensures DecodeFields(fields, StreamOf(fields, ps) + rest, now, seen)
         == if |now[i].values| + |AllElements(ps)| <= fields[i].rule.max
            then DecodeFields(fields, rest, now[i := Many(now[i].values + Resets(fields[i].kind, AllElements(ps)))], seen) else None
    decreases |ps|
  {
    AllElementsFit(fields, i, ps);
    hide *;
    if ps == [] {
      NoPieces(fields, rest);
      NothingAdded(fields[i].kind, now, i);
    } else {
      FirstPiece(fields, i, ps, rest);
      var es := AllElements(ps[1..]);
      OnePiece(fields, i, ps[0], now, StreamOf(fields, ps[1..]) + rest, seen);
      if |now[i].values| + |Elements(ps[0])| <= fields[i].rule.max {
        AddedTwice(fields[i].kind, now, i, Elements(ps[0]), es);
        ArrayInPieces(fields, i, ps[1..], now[i := Many(now[i].values + Resets(fields[i].kind, Elements(ps[0])))], rest, seen);
      }
    }
  }

  lemma NoPieces(fields: seq<Field>, rest: Bytes)
    ensures AllElements([]) == [] && AllOk(fields, []) && StreamOf(fields, []) + rest == rest
  {
    assert [] + rest == rest;
  }

  lemma FirstPiece(fields: seq<Field>, i: nat, ps: seq<Part>, rest: Bytes)
    requires i < |fields| && ps != [] && AllOk(fields, ps) && forall k :: 0 <= k < |ps| ==> PieceOf(fields, i, ps[k])
    ensures AllOk(fields, ps[1..]) && PieceOf(fields, i, ps[0]) && PartOk(fields, ps[0]) && forall k :: 0 <= k < |ps[1..]| ==> PieceOf(fields, i, ps[1..][k])
    ensures StreamOf(fields, ps) + rest == PartBytes(fields, ps[0]) + (StreamOf(fields, ps[1..]) + rest)
    ensures AllElements(ps) == Elements(ps[0]) + AllElements(ps[1..])
    ensures forall k :: 0 <= k < |Elements(ps[0])| ==> HasShape(fields[i].kind, Elements(ps[0])[k])
    ensures forall k :: 0 <= k < |AllElements(ps[1..])| ==> HasShape(fields[i].kind, AllElements(ps[1..])[k])
  {
    ElementsFit(fields, i, ps[0]);
    AllElementsFit(fields, i, ps[1..]);
    hide PieceOf, PartOk, PartBytes, HasShape;
    Regroup(PartBytes(fields, ps[0]), StreamOf(fields, ps[1..]), rest);
  }

  lemma NothingAdded(kind: DataType, now: seq<Slot>, i: nat)
    requires i < |now| && now[i].Many?
    ensures now[i := Many(now[i].values + Resets(kind, []))] == now
  {
    assert now[i].values + Resets(kind, []) == now[i].values;
  }

  lemma AddedTwice(kind: DataType, now: seq<Slot>, i: nat, a: seq<Value>, b: seq<Value>)
    requires i < |now| && now[i].Many? && (forall k :: 0 <= k < |a + b| ==> HasShape(kind, (a + b)[k]))
    requires (forall k :: 0 <= k < |a| ==> HasShape(kind, a[k])) && (forall k :: 0 <= k < |b| ==> HasShape(kind, b[k]))
    ensures var here := now[i := Many(now[i].values + Resets(kind, a))];
            && |here| == |now| && here[i].Many? && |here[i].values| == |now[i].values| + |a|
            && here[i := Many(here[i].values + Resets(kind, b))] == now[i := Many(now[i].values + Resets(kind, a + b))]
  {
    hide HasShape, Reset;
    assert now[i].values + Resets(kind, a) + Resets(kind, b) == now[i].values + Resets(kind, a + b);
  }

  /** A message of one array. */
  lemma ArraySplits(f: Field, ps: seq<Part>)
    requires DescriptorOk([f]) && f.rule.Repeated? && AllOk([f], ps) && forall k :: 0 <= k < |ps| ==> PieceOf([f], 0, ps[k])
    ensures forall k :: 0 <= k < |AllElements(ps)| ==> HasShape(f.kind, AllElements(ps)[k])
    ensures Decode([f], StreamOf([f], ps)) == if |AllElements(ps)| <= f.rule.max then Some([Many(Resets(f.kind, AllElements(ps)))]) else None
  {
    var fields, now, s := [f], Defaults([f]), StreamOf([f], ps);
    assert DefaultSlot(f) == Many([]) && now == [DefaultSlot(f)];
    assert RequiredBefore(fields, 1) == 0;
    hide DecodeFields, DescriptorOk, PieceOf, PartOk, StreamOf, AllElements, HasShape;
    ArrayInPieces(fields, 0, ps, now, [], {});
    assert s + [] == s;
    var es := AllElements(ps);
    assert [] + Resets(f.kind, es) == Resets(f.kind, es);
    DecodeNothing(fields, now[0 := Many(Resets(f.kind, es))], {});
    assert now[0 := Many(Resets(f.kind, es))] == [Many(Resets(f.kind, es))];
  }

  // Where a message ends, and wire types.

  /** A zero where a tag is due ends the message, whatever comes after it. */
  lemma ZeroEnds(fields: seq<Field>, more: Bytes, now: seq<Slot>, seen: set<nat>)
    requires |now| == |fields|
    ensures DecodeFields(fields, [0] + more, now, seen) == Some((now, seen))
  {
    hide Varint32At;
    assert Varint(0) == [0];
    Varint32RoundTrip(0, more);
  }

  /** So does a tag that is cut off by the end of the stream. */
  lemma CutTagEnds(fields: seq<Field>, cut: Bytes, now: seq<Slot>, seen: set<nat>)
    requires |now| == |fields| && |cut| <= 5 && forall i :: 0 <= i < |cut| ==> cut[i] >= 128
    ensures DecodeFields(fields, cut, now, seen) == Some((now, seen))
  {
    VarintTooLong(cut);
  }

  /** A tag of more than five bytes is an error, and so is an unknown field of a wire type there is not. */
  lemma BadTagFails(fields: seq<Field>, s: Bytes, now: seq<Slot>, seen: set<nat>)
    requires |now| == |fields| && |s| > 5 && forall i :: 0 <= i < 5 ==> s[i] >= 128
    ensures DecodeFields(fields, s, now, seen) == None
  {
    VarintTooLong(s);
  }

  lemma BadWireFails(fields: seq<Field>, tag: nat, wire: nat, payload: Bytes, now: seq<Slot>, seen: set<nat>)
    requires |now| == |fields| && 1 <= tag < 0x2000_0000 && (wire == 3 || wire == 4 || wire == 6 || wire == 7)
    requires forall i :: 0 <= i < |fields| ==> fields[i].tag != tag
    ensures DecodeFields(fields, TagBytes(tag, wire) + payload, now, seen) == None
  {
    hide DecodeField, TagAt, TagBytes, SetSlot, Marked;
    TagRoundTrip(tag, wire, payload);
    var stream := TagBytes(tag, wire) + payload;
    assert stream != [];
  }

  /** What nothing is received for holds its default: the field's own, or zero, or nothing. */
  lemma NothingReceived(fields: seq<Field>, i: nat)
    requires DescriptorOk(fields) && i < |fields| && forall j :: 0 <= j < |fields| ==> !fields[j].rule.Required?
    ensures Decode(fields, []).Some? && |Decode(fields, []).value| == |fields|
    ensures var f, s := fields[i], Decode(fields, []).value[i];
            && (f.rule.Repeated? ==> s == Many([])) && (f.rule.OneOf? ==> s == Union(None))
            && (f.rule.Optional? && !f.kind.Submessage? ==>
                  var v := if f.default.Some? then f.default.value else ZeroOf(f.kind);
                  s == if f.rule.flag then Maybe(false, v) else One(v))
  {
    NoneRequired(fields, |fields|);
    DecodeNothing(fields, Defaults(fields), {});
    assert Defaults(fields)[i] == DefaultSlot(fields[i]);
    OwnDefault(fields[i]);
    hide Decode, DefaultSlot, ZeroOf;
  }

  lemma OwnDefault(f: Field)
    ensures f.rule.Repeated? ==> DefaultSlot(f) == Many([])
    ensures f.rule.OneOf? ==> DefaultSlot(f) == Union(None)
    ensures f.rule.Optional? && !f.kind.Submessage? ==>
              var v := if f.default.Some? then f.default.value else ZeroOf(f.kind);
              DefaultSlot(f) == if f.rule.flag then Maybe(false, v) else One(v)
  {
    hide ZeroOf;
  }

  lemma {:induction false} NoneRequired(fields: seq<Field>, n: nat)
    requires n <= |fields| && forall j :: 0 <= j < |fields| ==> !fields[j].rule.Required?
    ensures RequiredBefore(fields, n) == 0
  {
    if n > 0 {
      NoneRequired(fields, n - 1);
    }
  }

  /** But for arrays that can be packed, the wire type a tag claims makes no difference. */
  lemma WireTypeIgnored(fields: seq<Field>, i: nat, wire: nat, wire': nat, payload: Bytes, now: seq<Slot>, seen: set<nat>)
    requires DescriptorOk(fields) && Built(fields, now) && i < |fields| && wire < 8 && wire' < 8
    requires fields[i].rule.Repeated? ==> !Packable(fields[i].kind)
    ensures |now| == |fields|
    ensures DecodeFields(fields, TagBytes(fields[i].tag, wire) + payload, now, seen)
         == DecodeFields(fields, TagBytes(fields[i].tag, wire') + payload, now, seen)
  {
    var f := fields[i];
    SlotIsBuilt(fields, now, i);
    assert DecodeField(f, wire, payload, now[i]) == DecodeField(f, wire', payload, now[i]);
    var r := DecodeField(f, wire, payload, now[i]);
    hide DecodeFields, DescriptorOk, TagBytes, DecodeField, SlotBuilt;
    match r
    case None =>
      FieldFails(fields, i, wire, payload, now, seen);
      FieldFails(fields, i, wire', payload, now, seen);
    case Some(x) =>
      OneField(fields, i, wire, payload, x.rest, now, seen, x.value);
      OneField(fields, i, wire', payload, x.rest, now, seen, x.value);
  }
}
