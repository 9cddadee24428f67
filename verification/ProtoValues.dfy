/** Numbers, strings, packed arrays and unknown fields read back as they were written (nanopb: pb_encode.c, pb_decode.c). */
module ProtoValues {
  import opened Keys
  import opened Coding
  import opened ProtoTypes
  import opened ProtoDecode

  // Numbers.

  lemma Unsigned(n: int)
    requires -0x8000_0000_0000_0000 <= n < 0x8000_0000_0000_0000
    ensures n % TWO64 == if n < 0 then n + TWO64 else n
  {
  }

  // Two's complement at a width takes back what it makes of a number in its range.
  lemma SignedAt(n: int, half: nat)
    requires half == 0x80 || half == 0x8000 || half == 0x8000_0000 || half == 0x8000_0000_0000_0000
    requires 0 <= n + half < 2 * half
    ensures Signed(if n < 0 then n + TWO64 else n, half) == n
  {
    if n < 0 {
      if half == 0x80 {
        WrapsTo(n + TWO64, 0xFF_FFFF_FFFF_FFFF, 0x100, n + 0x100);
      } else if half == 0x8000 {
        WrapsTo(n + TWO64, 0xFFFF_FFFF_FFFF, 0x1_0000, n + 0x1_0000);
      } else if half == 0x8000_0000 {
        WrapsTo(n + TWO64, 0xFFFF_FFFF, TWO32, n + TWO32);
      } else {
        WrapsTo(n + TWO64, 0, TWO64, n + TWO64);
      }
    }
  }

  lemma WrapsTo(u: nat, q: nat, m: nat, r: nat)
    requires m == 0x100 || m == 0x1_0000 || m == TWO32 || m == TWO64
    requires u == q * m + r && r < m
    ensures u % m == r
  {
    if m == 0x100 {
    } else if m == 0x1_0000 {
    } else if m == TWO32 {
    }
  }

  lemma SignedBack(n: int, size: nat)
    requires Width(size) && 0 <= n + HalfRange(size) < 2 * HalfRange(size)
    ensures Signed(n % TWO64, HalfRange(size)) == n
    ensures size < 8 ==> Signed(n % TWO64 % TWO32, HalfRange(4)) == n
  {
    Unsigned(n);
    SignedAt(n, HalfRange(size));
    if size < 8 {
      SignedAt(n, HalfRange(4));
      ModuloTwice(if n < 0 then n + TWO64 else n);
    }
  }

  lemma ModuloTwice(u: nat)
    ensures u % TWO32 % (2 * 0x8000_0000) == u % (2 * 0x8000_0000)
  {
  }

  lemma ZigZagBack(n: int, size: nat)
    requires Width(size) && 0 <= n + HalfRange(size) < 2 * HalfRange(size)
    ensures UnZigZag(ZigZagged(n)) == n && ZigZagged(n) < TWO64
  {
  }

  /** Which number a varint stands for, if any: a signed field takes the one in its range that agrees in 64 bits, or in 32 when
      the field is smaller, an unsigned field the number itself, a zigzag field the one of that zigzag form. */
  lemma NumberFromIff(kind: DataType, u: Uint64, n: int)
    requires HasShape(kind, Number(n)) && (kind.SignedVarint? || kind.UnsignedVarint? || kind.ZigZag?)
    ensures NumberFrom(kind, u) == Some(Number(n)) <==>
              match kind
              case SignedVarint(size) => if size == 8 then n % TWO64 == u else n % TWO32 == u % TWO32
              case ZigZag(_) => ZigZagged(n) == u
              case _ => n == u
  {
    match kind
    case SignedVarint(size) =>
      SignedBack(n, size);
      SignedFromIff(u, n, size);
      hide Signed;
    case ZigZag(size) =>
      SignedBack(n, size);
      ZigZagBack(n, size);
      ZigZagForth(u);
      hide Signed, ZigZagged, UnZigZag;
    case _ =>
  }

  lemma SignedFromIff(u: Uint64, n: int, size: nat)
    requires Width(size) && 0 <= n + HalfRange(size) < 2 * HalfRange(size)
    ensures (if size == 8 then Signed(u, HalfRange(8)) else Signed(u % TWO32, HalfRange(4))) == n
        <==> if size == 8 then n % TWO64 == u else n % TWO32 == u % TWO32
  {
    if size == 8 {
      SignedIff(u, n, HalfRange(8));
    } else {
      SignedIff(u % TWO32, n, HalfRange(4));
    }
  }

  lemma SignedIff(u: nat, n: int, half: nat)
    requires (half == 0x8000_0000 && u < TWO32) || (half == 0x8000_0000_0000_0000 && u < TWO64)
    requires 0 <= n + half < 2 * half
    ensures Signed(u, half) == n <==> (if half == 0x8000_0000 then n % TWO32 else n % TWO64) == u
  {
    if half == 0x8000_0000 {
      assert n % TWO32 == if n < 0 then n + TWO32 else n;
    } else {
      assert n % TWO64 == if n < 0 then n + TWO64 else n;
    }
  }

  lemma ZigZagForth(u: nat)
    ensures ZigZagged(UnZigZag(u)) == u
  {
  }

  lemma NumberRoundTrip(kind: DataType, v: Value, rest: Bytes)
    requires Packable(kind) && HasShape(kind, v)
    ensures DecodeNumber(kind, EncodeValue(kind, v) + rest) == Some(Parsed(v, rest))
  {
    hide Varint, Varint64At, Fixed, FixedValue, Power;
    match kind
    case SignedVarint(size) =>
      SignedBack(v.n, size);
      Varint64RoundTrip(AsUnsigned(v.n), rest);
    case UnsignedVarint(size) =>
      Varint64RoundTrip(v.n, rest);
    case ZigZag(size) =>
      ZigZagBack(v.n, size);
      SignedBack(v.n, size);
      Varint64RoundTrip(ZigZagged(v.n), rest);
    case Fixed32 =>
      Powers();
      FixedRoundTrip(v.n, 4);
      assert (Fixed(v.n, 4) + rest)[..4] == Fixed(v.n, 4) && (Fixed(v.n, 4) + rest)[4..] == rest;
    case Fixed64 =>
      Powers();
      FixedRoundTrip(v.n, 8);
      assert (Fixed(v.n, 8) + rest)[..8] == Fixed(v.n, 8) && (Fixed(v.n, 8) + rest)[8..] == rest;
  }

  lemma EncodedNumberNotEmpty(kind: DataType, v: Value)
    requires Packable(kind) && HasShape(kind, v)
    ensures EncodeValue(kind, v) != []
  {
  }

  lemma StringBack(d: Bytes, rest: Bytes)
    requires |d| < TWO32
    ensures StringAt(Varint(|d|) + d + rest) == Some(Parsed(d, rest))
  {
    hide Varint, Varint32At;
    Regroup(Varint(|d|), d, rest);
    Varint32RoundTrip(|d|, d + rest);
  }

  lemma DataRoundTrip(kind: DataType, v: Value, rest: Bytes)
    requires !Packable(kind) && !kind.Submessage? && HasShape(kind, v) && InRange(kind, v)
    ensures DecodeString(kind, EncodeValue(kind, v) + rest) == Some(Parsed(v, rest))
  {
    hide Varint, StringAt;
    StringBack(v.data, rest);
    if kind.FixedBlob? && v.data == [] {
      assert Zeros(0) == [];
    }
  }

  lemma TagRoundTrip(tag: nat, wire: nat, rest: Bytes)
    requires 1 <= tag < 0x2000_0000 && wire < 8
    ensures TagAt(TagBytes(tag, wire) + rest) == Found(tag, wire, rest) && TagBytes(tag, wire) != []
  {
    hide Varint32At;
    var t := tag * 8 + wire;
    Varint32RoundTrip(t, rest);
    assert t / 8 == tag && t % 8 == wire;
  }

  // Arrays.

  lemma {:induction false} EncodeItemsFirst(kind: DataType, vs: seq<Value>, prefix: Bytes)
    requires vs != [] && forall i :: 0 <= i < |vs| ==> HasShape(kind, vs[i])
    ensures EncodeItems(kind, vs, prefix) == prefix + EncodeValue(kind, vs[0]) + EncodeItems(kind, vs[1..], prefix)
  {
    hide EncodeValue, HasShape, EncodeItems;
    var n := |vs| - 1;
    EncodeItemsLast(kind, vs, prefix);
    if n == 0 {
      assert vs[..0] == [] && vs[1..] == [];
      NoItems(kind, vs, prefix);
      BesideNothing();
    } else {
      EncodeItemsFirst(kind, vs[..n], prefix);
      EncodeItemsLast(kind, vs[1..], prefix);
      assert vs[..n][1..] == vs[1..][..n - 1] && vs[1..][n - 1] == vs[n];
      Regroup4(prefix + EncodeValue(kind, vs[0]), EncodeItems(kind, vs[1..][..n - 1], prefix), prefix, EncodeValue(kind, vs[n]));
    }
  }

  lemma {:induction false} PackedRoundTrip(kind: DataType, vs: seq<Value>, before: seq<Value>, max: nat)
    requires Packable(kind) && (forall i :: 0 <= i < |vs| ==> HasShape(kind, vs[i])) && |before| + |vs| <= max
    ensures DecodePacked(kind, EncodeItems(kind, vs, []), before, max) == Some(before + vs)
    decreases |vs|
  {
    hide EncodeValue, HasShape, DecodeNumber;
    if vs == [] {
      assert before + vs == before;
    } else {
      var rest := EncodeItems(kind, vs[1..], []);
      EncodeItemsFirst(kind, vs, []);
      assert [] + EncodeValue(kind, vs[0]) + rest == EncodeValue(kind, vs[0]) + rest;
      EncodedNumberNotEmpty(kind, vs[0]);
      NumberRoundTrip(kind, vs[0], rest);
      PackedRoundTrip(kind, vs[1..], before + [vs[0]], max);
      assert before + [vs[0]] + vs[1..] == before + vs;
    }
  }

  // One field of a message.

  lemma {:induction false} IndexOfTag(fields: seq<Field>, i: nat)
    requires i < |fields| && forall j :: 0 <= j < i ==> fields[j].tag != fields[i].tag
    ensures IndexOf(fields, fields[i].tag) == i
  {
    if i > 0 {
      IndexOfTag(fields[1..], i - 1);
    }
  }

  /** A known field is decoded into its slot, and the rest of the stream after it. */
  lemma OneField(fields: seq<Field>, i: nat, wire: nat, payload: Bytes, rest: Bytes, slots: seq<Slot>, seen: set<nat>, s: Slot)
    requires DescriptorOk(fields) && i < |fields| == |slots| && wire < 8
    requires DecodeField(fields[i], wire, payload, slots[i]) == Some(Parsed(s, rest))
    ensures DecodeFields(fields, TagBytes(fields[i].tag, wire) + payload, slots, seen)
         == DecodeFields(fields, rest, SetSlot(fields, slots, i, s), Marked(fields, i, seen))
  {
    hide DecodeField, TagAt, TagBytes, SetSlot, Marked, SkipField;
    assert FieldOk(fields[i]);
    TagRoundTrip(fields[i].tag, wire, payload);
    IndexOfTag(fields, i);
    var stream := TagBytes(fields[i].tag, wire) + payload;
    assert stream != [];
  }

  /** An unknown field is skipped. */
  lemma OneUnknown(fields: seq<Field>, tag: nat, wire: nat, payload: Bytes, rest: Bytes, slots: seq<Slot>, seen: set<nat>)
    requires |fields| == |slots| && wire < 8 && 1 <= tag < 0x2000_0000
    requires forall i :: 0 <= i < |fields| ==> fields[i].tag != tag
    requires SkipField(wire, payload) == Some(rest)
    ensures DecodeFields(fields, TagBytes(tag, wire) + payload, slots, seen) == DecodeFields(fields, rest, slots, seen)
  {
    hide DecodeField, TagAt, TagBytes, SetSlot, Marked, SkipField;
    TagRoundTrip(tag, wire, payload);
    var stream := TagBytes(tag, wire) + payload;
    assert stream != [];
  }

  // Unknown fields.

  /** A field as the wire format allows it, of any type. */
  datatype Unknown = Unknown(tag: nat, wire: nat, payload: Bytes)

  ghost predicate VarintBytes(b: Bytes) {
    b != [] && b[|b| - 1] < 128 && forall i :: 0 <= i < |b| - 1 ==> b[i] >= 128
  }

  ghost predicate WellFormed(fields: seq<Field>, u: Unknown) {
    && 1 <= u.tag < 0x2000_0000 && (forall i :: 0 <= i < |fields| ==> fields[i].tag != u.tag)
    && ((u.wire == 0 && VarintBytes(u.payload)) || (u.wire == 1 && |u.payload| == 8) || (u.wire == 5 && |u.payload| == 4)
        || (u.wire == 2 && exists d: Bytes :: |d| < TWO32 && u.payload == Varint(|d|) + d))
  }

  function UnknownBytes(us: seq<Unknown>): Bytes {
    if us == [] then [] else TagBytes(us[0].tag, us[0].wire) + (us[0].payload + UnknownBytes(us[1..]))
  }

  lemma {:induction false} SkipVarintBack(b: Bytes, rest: Bytes)
    requires VarintBytes(b)
    ensures SkipVarint(b + rest) == Some(rest)
  {
    if b[0] < 128 {
      assert (b + rest)[1..] == rest;
    } else {
      assert (b + rest)[1..] == b[1..] + rest;
      SkipVarintBack(b[1..], rest);
    }
  }

  lemma SkipBack(fields: seq<Field>, u: Unknown, rest: Bytes)
    requires WellFormed(fields, u)
    ensures SkipField(u.wire, u.payload + rest) == Some(rest) && u.wire < 8
  {
    hide Varint, Varint32At;
    if u.wire == 0 {
      SkipVarintBack(u.payload, rest);
    } else if u.wire == 2 {
      var d: Bytes :| |d| < TWO32 && u.payload == Varint(|d|) + d;
      Regroup(Varint(|d|), d, rest);
      Varint32RoundTrip(|d|, d + rest);
      assert (d + rest)[|d|..] == rest;
    } else {
      assert (u.payload + rest)[|u.payload|..] == rest;
    }
  }

  lemma {:induction false} UnknownsSkipped(fields: seq<Field>, us: seq<Unknown>, rest: Bytes, slots: seq<Slot>, seen: set<nat>)
    requires |fields| == |slots| && forall i :: 0 <= i < |us| ==> WellFormed(fields, us[i])
    ensures DecodeFields(fields, UnknownBytes(us) + rest, slots, seen) == DecodeFields(fields, rest, slots, seen)
    decreases |us|
  {
    hide DecodeFields, TagBytes, SkipField, WellFormed;
    if us == [] {
      assert [] + rest == rest;
    } else {
      var u, more := us[0], UnknownBytes(us[1..]);
      UnknownAt(fields, u);
      SkipBack(fields, u, more + rest);
      OneUnknown(fields, u.tag, u.wire, u.payload + (more + rest), more + rest, slots, seen);
      UnknownsSkipped(fields, us[1..], rest, slots, seen);
      Regroup(u.payload, more, rest);
      Regroup(TagBytes(u.tag, u.wire), u.payload + more, rest);
    }
  }

  lemma UnknownAt(fields: seq<Field>, u: Unknown)
    requires WellFormed(fields, u)
    ensures 1 <= u.tag < 0x2000_0000 && forall i :: 0 <= i < |fields| ==> fields[i].tag != u.tag
  {
  }
}
