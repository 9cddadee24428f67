/** What decoding a string of bytes into a message does (nanopb: pb_decode.c). */
module ProtoDecode {
  import opened Keys
  import opened Coding
  import opened ProtoTypes

  lemma NumbersShrink(s: Bytes)
    ensures Varint32At(s).Some? ==> |Varint32At(s).value.rest| < |s|
    ensures Varint64At(s).Some? ==> |Varint64At(s).value.rest| < |s|
  {
    VarintShrinks(s, 5);
    VarintShrinks(s, 10);
  }

  // Tags.

  datatype TagResult = End | Bad | Found(tag: nat, wire: nat, rest: Bytes)

  /** A tag cut short by the end of the stream, or a zero byte, ends the message. */
  function TagAt(s: Bytes): TagResult {
    match Varint32At(s)
    case None => if |s| <= 5 then End else Bad
    case Some(p) => if p.value == 0 then End else Found(p.value / 8, p.value % 8, p.rest)
  }

  lemma TagShrinks(s: Bytes)
    ensures TagAt(s).Found? ==> |TagAt(s).rest| < |s|
  {
    NumbersShrink(s);
  }

  // Skipping.

  function SkipVarint(s: Bytes): Option<Bytes> {
    if s == [] then None else if s[0] < 128 then Some(s[1..]) else SkipVarint(s[1..])
  }

  function SkipBytes(s: Bytes, n: nat): Option<Bytes> {
    if n <= |s| then Some(s[n..]) else None
  }

  function SkipField(wire: nat, s: Bytes): Option<Bytes> {
    if wire == 0 then SkipVarint(s)
    else if wire == 1 then SkipBytes(s, 8)
    else if wire == 2 then match Varint32At(s) { case None => None case Some(p) => SkipBytes(p.rest, p.value) }
    else if wire == 5 then SkipBytes(s, 4)
    else None
  }

  lemma {:induction false} SkipVarintShrinks(s: Bytes)
    ensures SkipVarint(s).Some? ==> |SkipVarint(s).value| < |s|
  {
    if s != [] && s[0] >= 128 {
      SkipVarintShrinks(s[1..]);
    }
  }

  lemma SkipShrinks(wire: nat, s: Bytes)
    ensures SkipField(wire, s).Some? ==> |SkipField(wire, s).value| <= |s|
  {
    SkipVarintShrinks(s);
    NumbersShrink(s);
  }

  // Numbers.

  // A two's complement number of 2 * half values.
  function Signed(u: nat, half: nat): int
    requires half > 0
  {
    var m := u % (2 * half);
    if m < half then m else m - 2 * half
  }

  function UnZigZag(u: nat): int {
    if u % 2 == 1 then -(u / 2) - 1 else u / 2
  }

  /** A number that does not fit its field is an error. Signed fields of up to 32 bits look at 32 bits only. */
  function NumberFrom(kind: DataType, u: Uint64): Option<Value> {
    match kind
    case SignedVarint(size) =>
      var n := if size == 8 then Signed(u, HalfRange(8)) else Signed(u % TWO32, HalfRange(4));
      if Width(size) && Signed(n % TWO64, HalfRange(size)) == n then Some(Number(n)) else None
    case UnsignedVarint(size) => if Width(size) && u < 2 * HalfRange(size) then Some(Number(u)) else None
    case ZigZag(size) =>
      var n := UnZigZag(u);
      if Width(size) && Signed(n % TWO64, HalfRange(size)) == n then Some(Number(n)) else None
    case _ => None
  }

  function DecodeNumber(kind: DataType, s: Bytes): Option<Parsed<Value>> {
    match kind
    case Fixed32 => if 4 <= |s| then Some(Parsed(Number(FixedValue(s[..4])), s[4..])) else None
    case Fixed64 => if 8 <= |s| then Some(Parsed(Number(FixedValue(s[..8])), s[8..])) else None
    case _ =>
      match Varint64At(s)
      case None => None
      case Some(p) => match NumberFrom(kind, p.value)
                      case None => None
                      case Some(v) => Some(Parsed(v, p.rest))
  }

  lemma DecodeNumberShrinks(kind: DataType, s: Bytes)
    ensures DecodeNumber(kind, s).Some? ==> |DecodeNumber(kind, s).value.rest| < |s|
  {
    NumbersShrink(s);
  }

  // A string preceded by its length.
  function StringAt(s: Bytes): Option<Parsed<Bytes>> {
    match Varint32At(s)
    case None => None
    case Some(p) => if p.value <= |p.rest| then Some(Parsed(p.rest[..p.value], p.rest[p.value..])) else None
  }

  lemma StringShrinks(s: Bytes)
    ensures match StringAt(s) case None => true case Some(p) => |p.value| + |p.rest| < |s|
  {
    NumbersShrink(s);
  }

  function DecodeString(kind: DataType, s: Bytes): Option<Parsed<Value>> {
    match StringAt(s)
    case None => None
    case Some(p) =>
      match kind
      case Blob(capacity) => if |p.value| <= capacity then Some(Parsed(Data(p.value), p.rest)) else None
      case Text(size) => if |p.value| + 1 <= size then Some(Parsed(Data(p.value), p.rest)) else None
      case FixedBlob(size) =>
        if p.value == [] then Some(Parsed(Data(Zeros(size)), p.rest))
        else if |p.value| == size then Some(Parsed(Data(p.value), p.rest)) else None
      case _ => None
  }

  /** Items of a packed array, up to the room there is; what is left over is an error. */
  function DecodePacked(kind: DataType, s: Bytes, vs: seq<Value>, max: nat): Option<seq<Value>>
    decreases |s|
  {
    if s == [] then Some(vs)
    else if |vs| >= max then None
    else
      DecodeNumberShrinks(kind, s);
      match DecodeNumber(kind, s)
      case None => None
      case Some(p) => DecodePacked(kind, p.rest, vs + [p.value], max)
  }

  // Fields and messages.

  function IndexOf(fields: seq<Field>, tag: nat): (i: nat)
    ensures i <= |fields| && (i < |fields| ==> fields[i].tag == tag)
    ensures forall j :: 0 <= j < i ==> fields[j].tag != tag
  {
    if fields == [] || fields[0].tag == tag then 0 else 1 + IndexOf(fields[1..], tag)
  }

  /** Setting a member of a oneof clears the others. */
  function SetSlot(fields: seq<Field>, slots: seq<Slot>, i: nat, s: Slot): seq<Slot>
    requires i < |fields| == |slots|
  {
    seq(|slots|, j requires 0 <= j < |slots| =>
      if j == i then s
      else if fields[i].rule.OneOf? && fields[j].rule == fields[i].rule then Union(None) else slots[j])
  }

  function DecodeValue(kind: DataType, s: Bytes, current: Value): Option<Parsed<Value>>
    decreases |s|, 0
  {
    if kind.Submessage? then
      StringShrinks(s);
      match StringAt(s)
      case None => None
      case Some(p) =>
        if !current.Record? || |current.slots| != |kind.desc.fields| then None else
        match DecodeMessage(kind.desc.fields, p.value, current.slots)
        case None => None
        case Some(slots) => Some(Parsed(Record(slots), p.rest))
    else if Packable(kind) then DecodeNumber(kind, s)
    else DecodeString(kind, s)
  }

  /** decode_static_field: what a field makes of the bytes after its tag. The wire type matters for packed arrays only. */
  function DecodeField(f: Field, wire: nat, s: Bytes, slot: Slot): Option<Parsed<Slot>>
    decreases |s|, 1
  {
    match slot
    case One(v) => Wrapped(DecodeValue(f.kind, s, v), w => One(w))
    case Maybe(_, v) => Wrapped(DecodeValue(f.kind, s, v), w => Maybe(true, w))
    case Union(_) => Wrapped(DecodeValue(f.kind, s, ZeroOf(f.kind)), w => Union(Some(w)))
    case Many(vs) =>
      if !f.rule.Repeated? then None
      else if wire == 2 && Packable(f.kind) then
        match StringAt(s)
        case None => None
        case Some(p) => match DecodePacked(f.kind, p.value, vs, f.rule.max)
                        case None => None
                        case Some(ws) => Some(Parsed(Many(ws), p.rest))
      else if |vs| >= f.rule.max then None
      else Wrapped(DecodeValue(f.kind, s, ZeroOf(f.kind)), w => Many(vs + [w]))
  }

  function Wrapped(p: Option<Parsed<Value>>, wrap: Value -> Slot): Option<Parsed<Slot>> {
    match p
    case None => None
    case Some(x) => Some(Parsed(wrap(x.value), x.rest))
  }

  lemma DecodeValueShrinks(kind: DataType, s: Bytes, current: Value)
    ensures DecodeValue(kind, s, current).Some? ==> |DecodeValue(kind, s, current).value.rest| < |s|
    decreases |s|, 1
  {
    hide StringAt, DecodeNumber;
    StringShrinks(s);
    DecodeNumberShrinks(kind, s);
  }

  lemma DecodeFieldShrinks(f: Field, wire: nat, s: Bytes, slot: Slot)
    ensures DecodeField(f, wire, s, slot).Some? ==> |DecodeField(f, wire, s, slot).value.rest| < |s|
    decreases |s|, 2
  {
    hide StringAt, DecodeValue, DecodePacked;
    StringShrinks(s);
    DecodeValueShrinks(f.kind, s, ZeroOf(f.kind));
    if slot.One? || slot.Maybe? {
      DecodeValueShrinks(f.kind, s, slot.value);
    }
  }

  function Marked(fields: seq<Field>, i: nat, seen: set<nat>): set<nat>
    requires i < |fields|
  {
    if fields[i].rule.Required? && RequiredBefore(fields, i) < 64 then seen + {RequiredBefore(fields, i)} else seen
  }

  /** pb_decode_noinit's loop: fields as they come, unknown ones skipped, until the stream or the message ends. */
  function DecodeFields(fields: seq<Field>, s: Bytes, slots: seq<Slot>, seen: set<nat>): Option<(seq<Slot>, set<nat>)>
    requires |slots| == |fields|
    decreases |s|, 2
  {
    if s == [] then Some((slots, seen)) else
    TagShrinks(s);
    match TagAt(s)
    case End => Some((slots, seen))
    case Bad => None
    case Found(tag, wire, rest) =>
      // The terminator of an empty descriptor is found for tag zero, and is no field.
      if fields == [] && tag == 0 then None else
      var i := IndexOf(fields, tag);
      if i == |fields| then
        SkipShrinks(wire, rest);
        match SkipField(wire, rest)
        case None => None
        case Some(after) => DecodeFields(fields, after, slots, seen)
      else
        DecodeFieldShrinks(fields[i], wire, rest, slots[i]);
        match DecodeField(fields[i], wire, rest, slots[i])
        case None => None
        case Some(p) => DecodeFields(fields, p.rest, SetSlot(fields, slots, i, p.value), Marked(fields, i, seen))
  }

  /** Every required field has been seen. */
  predicate AllSeen(fields: seq<Field>, seen: set<nat>) {
    forall r :: 0 <= r < RequiredBefore(fields, |fields|) ==> r in seen
  }

  function DecodeMessage(fields: seq<Field>, s: Bytes, slots: seq<Slot>): Option<seq<Slot>>
    requires |slots| == |fields|
    decreases |s|, 3
  {
    match DecodeFields(fields, s, slots, {})
    case None => None
    case Some(r) => if AllSeen(fields, r.1) then Some(r.0) else None
  }

  /** pb_decode: into a message set to its defaults. */
  function Decode(fields: seq<Field>, s: Bytes): Option<seq<Slot>> {
    DecodeMessage(fields, s, Defaults(fields))
  }
}
