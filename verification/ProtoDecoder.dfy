/** The decoder (nanopb: pb_decode.c, pb_common.c): a circular field iterator, bounded substreams and a bitmap of
    required fields, against the plain account of what decoding does. */
module ProtoDecoder {
  import opened Keys
  import opened Coding
  import opened ProtoTypes
  import opened ProtoDecode

  /** The fields of a descriptor, round and round, with the number of required fields before the current one. */
  class FieldIter {
    const fields: seq<Field>
    var pos: nat
    var requiredIndex: nat

    ghost predicate Valid()
      reads this
    {
      && (if fields == [] then pos == 0 else pos < |fields|)
      && requiredIndex == RequiredBefore(fields, pos)
    }

    constructor (fields: seq<Field>)
      ensures Valid() && this.fields == fields
    {
      this.fields := fields;
      pos, requiredIndex := 0, 0;
    }

    method Begin() returns (any: bool)
      modifies this
      ensures Valid() && pos == 0 && any == (fields != [])
    {
      pos, requiredIndex := 0, 0;
      any := fields != [];
    }

    /** On to the next field; false when that is the first one again. */
    method Next() returns (more: bool)
      requires Valid()
      modifies this
      ensures Valid()
      ensures more == (old(pos) + 1 < |fields|) && pos == if more then old(pos) + 1 else 0
    {
      if fields == [] {
        return false;
      }
      var previous := fields[pos];
      pos := pos + 1;
      if pos == |fields| {
        var any := Begin();
        return false;
      }
      if previous.rule.Required? {
        requiredIndex := requiredIndex + 1;
      }
      return true;
    }

    /** Goes once around for a tag, from where it is. Tags are distinct, so it is found wherever it was begun; only the
        terminator of an empty descriptor has tag zero. */
    method Find(tag: nat) returns (found: bool)
      requires Valid() && DescriptorOk(fields)
      modifies this
      ensures Valid()
      ensures found == (IndexOf(fields, tag) < |fields| || (fields == [] && tag == 0))
      ensures found && fields != [] ==> pos == IndexOf(fields, tag)
    {
      hide DescriptorOk, RequiredBefore;
      var start := pos;
      ghost var wrapped := false;
      FindAt(fields, tag);
      while true
        invariant Valid()
        invariant !wrapped ==> start <= pos && forall i :: start <= i < pos ==> fields[i].tag != tag
        invariant wrapped ==> pos < start < |fields| && forall i :: 0 <= i < |fields| && (start <= i || i < pos) ==> fields[i].tag != tag
        decreases !wrapped, if wrapped then start - pos else |fields| - pos
      {
        if (if fields == [] then 0 else fields[pos].tag) == tag {
          return true;
        }
        var more := Next();
        wrapped := wrapped || !more;
        if pos == start {
          return false;
        }
      }
    }
  }

  lemma FindAt(fields: seq<Field>, tag: nat)
    requires DescriptorOk(fields)
    ensures forall i :: 0 <= i < |fields| && fields[i].tag == tag ==> IndexOf(fields, tag) == i
  {
  }

  /** An input stream over part of a buffer. */
  // What one more byte of a varint makes of the number so far.
  lemma OneMoreByte(s: Bytes, limit: nat, i: nat, exact: nat, scale: nat, modulus: nat)
    requires i < limit && i < |s| && s[i] >= 128 && (modulus == TWO32 || modulus == TWO64)
    requires VarintAt(s, limit) == Prefixed(exact, scale, VarintAt(s[i..], limit - i))
    ensures var more: nat := scale * (s[i] - 128);
            && VarintAt(s, limit) == Prefixed(exact + more, scale * 128, VarintAt(s[i + 1..], limit - (i + 1)))
            && (exact % modulus + more) % modulus == (exact + more) % modulus
  {
    hide VarintAt, Prefixed;
    assert s[i..][1..] == s[i + 1..] && s[i..][0] == s[i];
    PrefixedStep(exact, scale, s[i..], limit - i);
    var more: nat := scale * (s[i] - 128);
    AddModulo(exact, more, modulus);
  }

  lemma LastByte(s: Bytes, limit: nat, i: nat, exact: nat, scale: nat, modulus: nat)
    requires i < limit && i < |s| && s[i] < 128 && (modulus == TWO32 || modulus == TWO64)
    requires VarintAt(s, limit) == Prefixed(exact, scale, VarintAt(s[i..], limit - i))
    ensures var more: nat := scale * s[i];
            && VarintAt(s, limit) == Some(Parsed(exact + more, s[i + 1..]))
            && (exact % modulus + more) % modulus == (exact + more) % modulus
  {
    hide VarintAt, Prefixed;
    assert s[i..][1..] == s[i + 1..] && s[i..][0] == s[i];
    PrefixedLast(exact, scale, s[i..], limit - i);
    var more: nat := scale * s[i];
    AddModulo(exact, more, modulus);
  }

  class IStream {
    const data: Bytes
    var pos: nat
    var bytesLeft: nat

    ghost predicate Valid()
      reads this
    {
      pos + bytesLeft <= |data|
    }

    ghost function Rest(): Bytes
      requires Valid()
      reads this
    {
      data[pos..pos + bytesLeft]
    }

    function End(): nat
      reads this
    {
      pos + bytesLeft
    }

    constructor (data: Bytes, pos: nat, bytesLeft: nat)
      requires pos + bytesLeft <= |data|
      ensures Valid() && this.data == data && this.pos == pos && this.bytesLeft == bytesLeft
      ensures Rest() == data[pos..pos + bytesLeft]
    {
      this.data, this.pos, this.bytesLeft := data, pos, bytesLeft;
    }

    method Read(n: nat) returns (r: Option<Bytes>)
      requires Valid()
      modifies this
      ensures Valid() && End() == old(End())
      ensures r.Some? == (n <= old(bytesLeft))
      ensures r.Some? ==> r.value == old(Rest())[..n] && Rest() == old(Rest())[n..]
      ensures r.None? ==> Rest() == old(Rest())
    {
      if bytesLeft < n {
        return None;
      }
      r := Some(data[pos..pos + n]);
      pos := pos + n;
      bytesLeft := bytesLeft - n;
    }

    method ReadByte() returns (r: Option<Byte>)
      requires Valid()
      modifies this
      ensures Valid() && End() == old(End())
      ensures r.Some? == (old(Rest()) != [])
      ensures r.Some? ==> r.value == old(Rest())[0] && Rest() == old(Rest())[1..]
      ensures r.None? ==> Rest() == old(Rest())
    {
      if bytesLeft == 0 {
        return None;
      }
      r := Some(data[pos]);
      pos := pos + 1;
      bytesLeft := bytesLeft - 1;
    }

    /** A varint of up to `limit` bytes in a word of `modulus` values; one that goes on for longer is an error. */
    method DecodeVarintOf(limit: nat, modulus: nat) returns (r: Option<nat>)
      requires Valid() && limit > 0 && (modulus == TWO32 || modulus == TWO64)
      modifies this
      ensures Valid() && End() == old(End())
      ensures match VarintAt(old(Rest()), limit)
              case None => r.None? && bytesLeft == if old(bytesLeft) > limit then old(bytesLeft) - limit else 0
              case Some(p) => r == Some(p.value % modulus) && Rest() == p.rest
    {
      hide VarintAt, Prefixed;
      ghost var s := Rest();
      var result: nat, scale: nat, i := 0, 1, 0;
      ghost var exact: nat := 0;
      PrefixedWhole(VarintAt(s, limit));
      while true
        invariant Valid() && End() == old(End()) && i <= limit && i <= |s| && Rest() == s[i..]
        invariant result == exact % modulus
        invariant VarintAt(s, limit) == Prefixed(exact, scale, VarintAt(s[i..], limit - i))
        decreases limit - i
      {
        PrefixedEnds(exact, scale, s[i..], limit - i);
        if i >= limit {
          return None;
        }
        var b := ReadByte();
        if b.None? {
          return None;
        }
        var byte: nat := b.value;
        if byte >= 128 {
          OneMoreByte(s, limit, i, exact, scale, modulus);
          var more: nat := scale * (byte - 128);
          result := (result + more) % modulus;
          exact := exact + more;
          scale := scale * 128;
          i := i + 1;
        } else {
          LastByte(s, limit, i, exact, scale, modulus);
          var more: nat := scale * byte;
          result := (result + more) % modulus;
          return Some(result);
        }
      }
    }

    method DecodeVarint32() returns (r: Option<Uint32>)
      requires Valid()
      modifies this
      ensures Valid() && End() == old(End())
      ensures match Varint32At(old(Rest()))
              case None => r.None? && bytesLeft == if old(bytesLeft) > 5 then old(bytesLeft) - 5 else 0
              case Some(p) => r == Some(p.value) && Rest() == p.rest
    {
      var v := DecodeVarintOf(5, TWO32);
      r := if v.None? then None else Some(v.value);
    }

    method DecodeVarint() returns (r: Option<Uint64>)
      requires Valid()
      modifies this
      ensures Valid() && End() == old(End())
      ensures match Varint64At(old(Rest()))
              case None => r.None?
              case Some(p) => r == Some(p.value) && Rest() == p.rest
    {
      var v := DecodeVarintOf(10, TWO64);
      r := if v.None? then None else Some(v.value);
    }

    method SkipVarintBytes() returns (ok: bool)
      requires Valid()
      modifies this
      ensures Valid() && End() == old(End())
      ensures match SkipVarint(old(Rest())) case None => !ok case Some(rest) => ok && Rest() == rest
    {
      while true
        invariant Valid() && End() == old(End())
        invariant SkipVarint(old(Rest())) == SkipVarint(Rest())
        decreases bytesLeft
      {
        var b := ReadByte();
        if b.None? {
          return false;
        }
        if b.value < 128 {
          return true;
        }
      }
    }

    /** pb_skip_field: over a field of any type. */
    method Skip(wire: nat) returns (ok: bool)
      requires Valid()
      modifies this
      ensures Valid() && End() == old(End())
      ensures match SkipField(wire, old(Rest())) case None => !ok case Some(rest) => ok && Rest() == rest
    {
      hide SkipVarint, Varint32At;
      if wire == 0 {
        ok := SkipVarintBytes();
      } else if wire == 1 {
        var r := Read(8);
        ok := r.Some?;
      } else if wire == 2 {
        var n := DecodeVarint32();
        if n.None? {
          return false;
        }
        var r := Read(n.value);
        ok := r.Some?;
      } else if wire == 5 {
        var r := Read(4);
        ok := r.Some?;
      } else {
        ok := false;
      }
    }

    /** pb_decode_tag. */
    method DecodeTag() returns (r: TagResult)
      requires Valid()
      modifies this
      ensures Valid() && End() == old(End())
      ensures match TagAt(old(Rest()))
              case End => r == TagResult.End
              case Bad => r == Bad
              case Found(tag, wire, rest) => r == Found(tag, wire, []) && Rest() == rest
    {
      hide Varint32At;
      var n := DecodeVarint32();
      if n.None? {
        return if bytesLeft == 0 then TagResult.End else Bad;
      }
      if n.value == 0 {
        return TagResult.End;
      }
      return Found(n.value / 8, n.value % 8, []);
    }

    /** A substream over a string that follows; this stream stays where it is until the substream is closed. */
    method MakeSubstream() returns (sub: IStream?)
      requires Valid()
      modifies this
      ensures match StringAt(old(Rest()))
              case None => sub == null && Valid()
              case Some(p) =>
                && sub != null && fresh(sub) && sub.Valid() && sub.data == data && sub.Rest() == p.value
                && bytesLeft == |p.rest| && sub.End() + bytesLeft == old(End()) && sub.End() + |p.rest| <= |data|
                && data[sub.End()..sub.End() + bytesLeft] == p.rest
    {
      hide Varint32At;
      var n := DecodeVarint32();
      if n.None? {
        return null;
      }
      if bytesLeft < n.value {
        return null;
      }
      sub := new IStream(data, pos, n.value);
      bytesLeft := bytesLeft - n.value;
    }

    method CloseSubstream(sub: IStream)
      requires sub != this && sub.Valid() && sub.data == data && sub.End() + bytesLeft <= |data|
      modifies this, sub
      ensures Valid() && pos == old(sub.End()) && bytesLeft == old(bytesLeft)
    {
      if sub.bytesLeft > 0 {
        var r := sub.Read(sub.bytesLeft);
      }
      pos := sub.pos;
    }
  }

  // At the limit, or at the end of the stream, there is no varint.
  lemma PrefixedEnds(low: nat, scale: nat, s: Bytes, limit: nat)
    ensures limit == 0 || s == [] ==> Prefixed(low, scale, VarintAt(s, limit)) == None
  {
  }

  // Field decoders.

  method DecodeNumberFrom(stream: IStream, kind: DataType) returns (r: Option<Value>)
    requires stream.Valid() && Packable(kind)
    modifies stream
    ensures stream.Valid() && stream.End() == old(stream.End())
    ensures match DecodeNumber(kind, old(stream.Rest()))
            case None => r == None
            case Some(p) => r == Some(p.value) && stream.Rest() == p.rest
  {
    hide Varint64At, FixedValue, NumberFrom;
    if kind.Fixed32? {
      var b := stream.Read(4);
      r := if b.None? then None else Some(Number(FixedValue(b.value)));
    } else if kind.Fixed64? {
      var b := stream.Read(8);
      r := if b.None? then None else Some(Number(FixedValue(b.value)));
    } else {
      var u := stream.DecodeVarint();
      r := if u.None? then None else NumberFrom(kind, u.value);
    }
  }

  /** A string of bytes; its room is checked before it is read. */
  method DecodeStringFrom(stream: IStream, kind: DataType) returns (r: Option<Value>)
    requires stream.Valid() && !Packable(kind) && !kind.Submessage?
    modifies stream
    ensures stream.Valid() && stream.End() == old(stream.End())
    ensures match DecodeString(kind, old(stream.Rest()))
            case None => r == None
            case Some(p) => r == Some(p.value) && stream.Rest() == p.rest
  {
    hide Varint32At;
    var size := stream.DecodeVarint32();
    if size.None? {
      return None;
    }
    if kind.Blob? && size.value > kind.capacity {
      return None;
    }
    if kind.Text? && size.value + 1 > kind.size {
      return None;
    }
    if kind.FixedBlob? {
      if size.value == 0 {
        ghost var rest := stream.Rest();
        assert rest[..0] == [] && rest[0..] == rest;
        return Some(Data(Zeros(kind.size)));
      }
      if size.value != kind.size {
        return None;
      }
    }
    var b := stream.Read(size.value);
    r := if b.None? then None else Some(Data(b.value));
  }

  /** The items of a packed array, while there is room. */
  method DecodePackedFrom(sub: IStream, kind: DataType, before: seq<Value>, max: nat) returns (r: Option<seq<Value>>)
    requires sub.Valid() && Packable(kind)
    modifies sub
    ensures sub.Valid() && sub.End() == old(sub.End())
    ensures r == DecodePacked(kind, old(sub.Rest()), before, max)
  {
    hide DecodeNumber;
    var vs := before;
    while sub.bytesLeft > 0 && |vs| < max
      invariant sub.Valid() && sub.End() == old(sub.End())
      invariant DecodePacked(kind, old(sub.Rest()), before, max) == DecodePacked(kind, sub.Rest(), vs, max)
      decreases sub.bytesLeft
    {
      DecodeNumberShrinks(kind, sub.Rest());
      ghost var s := sub.Rest();
      var v := DecodeNumberFrom(sub, kind);
      if v.None? {
        return None;
      }
      assert |sub.Rest()| < |s|;
      vs := vs + [v.value];
    }
    if sub.bytesLeft != 0 {
      return None;
    }
    return Some(vs);
  }

  method DecodeValueFrom(stream: IStream, kind: DataType, current: Value) returns (r: Option<Value>)
    requires stream.Valid() && (kind.Submessage? ==> DescriptorOk(kind.desc.fields))
    modifies stream
    ensures match DecodeValue(kind, old(stream.Rest()), current)
            case None => r == None
            case Some(p) => r == Some(p.value) && stream.Valid() && stream.End() == old(stream.End()) && stream.Rest() == p.rest
    decreases |stream.Rest()|, 0
  {
    hide StringAt, DescriptorOk, DecodeMessage, DecodeNumber, DecodeString;
    if kind.Submessage? {
      StringShrinks(stream.Rest());
      var sub := stream.MakeSubstream();
      if sub == null {
        return None;
      }
      if !current.Record? || |current.slots| != |kind.desc.fields| {
        return None;
      }
      var slots := DecodeNoInit(sub, kind.desc.fields, current.slots);
      if slots.None? {
        return None;
      }
      stream.CloseSubstream(sub);
      return Some(Record(slots.value));
    } else if Packable(kind) {
      r := DecodeNumberFrom(stream, kind);
    } else {
      r := DecodeStringFrom(stream, kind);
    }
  }

  /** decode_static_field. */
  method DecodeFieldFrom(stream: IStream, f: Field, wire: nat, slot: Slot) returns (r: Option<Slot>)
    requires stream.Valid() && FieldOk(f)
    modifies stream
    ensures match DecodeField(f, wire, old(stream.Rest()), slot)
            case None => r == None
            case Some(p) => r == Some(p.value) && stream.Valid() && stream.End() == old(stream.End()) && stream.Rest() == p.rest
    decreases |stream.Rest()|, 1
  {
    hide StringAt, DecodeValue, DecodePacked, ZeroOf, DescriptorOk;
    match slot
    case One(v) =>
      var w := DecodeValueFrom(stream, f.kind, v);
      r := if w.None? then None else Some(One(w.value));
    case Maybe(_, v) =>
      var w := DecodeValueFrom(stream, f.kind, v);
      r := if w.None? then None else Some(Maybe(true, w.value));
    case Union(_) =>
      var w := DecodeValueFrom(stream, f.kind, ZeroOf(f.kind));
      r := if w.None? then None else Some(Union(Some(w.value)));
    case Many(vs) =>
      if !f.rule.Repeated? {
        return None;
      }
      if wire == 2 && Packable(f.kind) {
        var sub := stream.MakeSubstream();
        if sub == null {
          return None;
        }
        var ws := DecodePackedFrom(sub, f.kind, vs, f.rule.max);
        if ws.None? {
          return None;
        }
        stream.CloseSubstream(sub);
        return Some(Many(ws.value));
      }
      if |vs| >= f.rule.max {
        return None;
      }
      var w := DecodeValueFrom(stream, f.kind, ZeroOf(f.kind));
      r := if w.None? then None else Some(Many(vs + [w.value]));
  }

  // The bitmap of required fields: two words of 32 bits.

  ghost predicate Marks(bits: seq<bool>, seen: set<nat>, count: nat) {
    && |bits| == 64 && (forall r: nat :: r < 64 ==> (bits[r] <==> r in seen))
    && forall r :: r in seen ==> r < count
  }

  // A word with ones in its n lowest bits.
  function Word(n: nat): seq<bool> {
    seq(32, r => r < n)
  }

  lemma WordIs(bits: seq<bool>, seen: set<nat>, count: nat, word: nat, n: nat)
    requires Marks(bits, seen, count) && word < 2
    ensures bits[32 * word..32 * word + 32] == Word(n) <==> forall r: nat :: 32 * word <= r < 32 * word + 32 ==> (r in seen <==> r < 32 * word + n)
  {
    var slice := bits[32 * word..32 * word + 32];
    assert forall r: nat :: 32 * word <= r < 32 * word + 32 ==> (r in seen <==> slice[r - 32 * word]);
    if slice == Word(n) {
      forall r: nat | 32 * word <= r < 32 * word + 32 ensures r in seen <==> r < 32 * word + n {
        assert slice[r - 32 * word] == Word(n)[r - 32 * word];
      }
    }
    if forall r: nat :: 32 * word <= r < 32 * word + 32 ==> (r in seen <==> r < 32 * word + n) {
      forall k | 0 <= k < 32 ensures slice[k] == Word(n)[k] {
        assert 32 * word + k in seen <==> slice[k];
      }
    }
  }

  /** The check at the end: whole words are all ones, and the last word has ones for just the required fields left. */
  method CheckRequired(bits: seq<bool>, count: nat, ghost seen: set<nat>) returns (ok: bool)
    requires Marks(bits, seen, count) && (count == 0 || (count < 64 && count % 32 != 0))
    ensures ok <==> forall r: nat :: r < count ==> r in seen
  {
    if count == 0 {
      return true;
    }
    var words := count / 32;
    for i := 0 to words
      invariant forall r: nat :: r < 32 * i ==> r in seen
    {
      WordIs(bits, seen, count, i, 32);
      if bits[32 * i..32 * i + 32] != Word(32) {
        return false;
      }
    }
    WordIs(bits, seen, count, words, count % 32);
    return bits[32 * words..32 * words + 32] == Word(count % 32);
  }

  lemma CountGrows(fields: seq<Field>, i: nat)
    requires i < |fields|
    ensures RequiredBefore(fields, i) <= RequiredBefore(fields, |fields|)
    ensures fields[i].rule.Required? ==> RequiredBefore(fields, i) < RequiredBefore(fields, |fields|)
  {
    RequiredGrows(fields, i + 1, |fields|);
  }

  // One turn of the loop, for a tag that is no field's and for one that is.

  lemma SkipStep(fields: seq<Field>, s: Bytes, slots: seq<Slot>, seen: set<nat>)
    requires |slots| == |fields| && s != [] && TagAt(s).Found?
    requires IndexOf(fields, TagAt(s).tag) == |fields| && !(fields == [] && TagAt(s).tag == 0)
    ensures DecodeFields(fields, s, slots, seen)
         == match SkipField(TagAt(s).wire, TagAt(s).rest)
            case None => None
            case Some(after) => DecodeFields(fields, after, slots, seen)
  {
    hide TagAt, SkipField, DecodeField, SetSlot, IndexOf;
  }

  lemma FieldStep(fields: seq<Field>, s: Bytes, slots: seq<Slot>, seen: set<nat>, i: nat)
    requires |slots| == |fields| && s != [] && TagAt(s).Found?
    requires i == IndexOf(fields, TagAt(s).tag) < |fields|
    ensures DecodeFields(fields, s, slots, seen)
         == match DecodeField(fields[i], TagAt(s).wire, TagAt(s).rest, slots[i])
            case None => None
            case Some(p) => DecodeFields(fields, p.rest, SetSlot(fields, slots, i, p.value), Marked(fields, i, seen))
  {
    hide TagAt, SkipField, DecodeField, SetSlot, IndexOf, Marked;
  }

  lemma LastStep(fields: seq<Field>, s: Bytes, slots: seq<Slot>, seen: set<nat>)
    requires |slots| == |fields|
    ensures s == [] || TagAt(s).End? ==> DecodeFields(fields, s, slots, seen) == Some((slots, seen))
    ensures s != [] && (TagAt(s).Bad? || (TagAt(s).Found? && fields == [] && TagAt(s).tag == 0)) ==>
              DecodeFields(fields, s, slots, seen) == None
  {
    hide TagAt, SkipField, DecodeField, SetSlot, IndexOf, Marked;
  }

  /** The bit of a required field is set. */
  method MarkSeen(iter: FieldIter, bits: seq<bool>, ghost seen: set<nat>) returns (b: seq<bool>)
    requires iter.Valid() && iter.pos < |iter.fields| && Marks(bits, seen, RequiredBefore(iter.fields, |iter.fields|))
    ensures Marks(b, Marked(iter.fields, iter.pos, seen), RequiredBefore(iter.fields, |iter.fields|))
  {
    hide RequiredBefore;
    CountGrows(iter.fields, iter.pos);
    b := bits;
    if iter.fields[iter.pos].rule.Required? && iter.requiredIndex < 64 {
      b := b[iter.requiredIndex := true];
    }
  }

  /** The number of required fields, by going on to the end of the descriptor. What stands there reads as a required
      field of tag zero. */
  method CountRequired(iter: FieldIter) returns (count: nat)
    requires iter.Valid() && DescriptorOk(iter.fields)
    modifies iter
    ensures count == RequiredBefore(iter.fields, |iter.fields|)
  {
    hide DescriptorOk;
    TagsNotZero(iter.fields);
    var fields := iter.fields;
    ghost var p := iter.pos;
    count := iter.requiredIndex;
    var last := fields == [] || fields[iter.pos].rule.Required?;
    var more := iter.Next();
    while more
      invariant iter.Valid() && p <= |fields| && count == RequiredBefore(fields, p)
      invariant fields != [] ==> p < |fields| && last == fields[p].rule.Required? && more == (p + 1 < |fields|)
      invariant fields == [] ==> p == 0 && !more
      invariant iter.pos == if more then p + 1 else 0
      decreases |fields| - p, more
    {
      p := iter.pos;
      count := iter.requiredIndex;
      last := fields[iter.pos].rule.Required?;
      more := iter.Next();
    }
    if last && (if fields == [] then 0 else fields[iter.pos].tag) != 0 {
      count := count + 1;
    }
  }

  lemma TagsNotZero(fields: seq<Field>)
    requires DescriptorOk(fields)
    ensures forall i :: 0 <= i < |fields| ==> fields[i].tag != 0 && FieldOk(fields[i])
    ensures var n := RequiredBefore(fields, |fields|); n == 0 || (n < 64 && n % 32 != 0)
  {
  }

  /** pb_decode_noinit: fields as they come, unknown ones skipped, and every required field seen at the end. */
  method DecodeNoInit(stream: IStream, fields: seq<Field>, slots: seq<Slot>) returns (r: Option<seq<Slot>>)
    requires stream.Valid() && DescriptorOk(fields) && |slots| == |fields|
    modifies stream
    ensures r == DecodeMessage(fields, old(stream.Rest()), slots)
    ensures r.Some? ==> stream.Valid() && stream.End() == old(stream.End())
    decreases |stream.Rest()|, 3
  {
    hide TagAt, SkipField, DecodeField, RequiredBefore, DescriptorOk, DecodeFields, IndexOf, Marked;
    TagsNotZero(fields);
    var iter := new FieldIter(fields);
    var any := iter.Begin();
    var current, bits := slots, seq(64, _ => false);
    ghost var seen: set<nat>, s0, count := {}, stream.Rest(), RequiredBefore(fields, |fields|);
    var done := false;
    while stream.bytesLeft > 0 && !done
      invariant stream.Valid() && stream.End() == old(stream.End())
      invariant !done ==> |stream.Rest()| <= |s0|
      invariant fresh(iter) && iter.Valid() && iter.fields == fields && |current| == |fields|
      invariant Marks(bits, seen, count)
      invariant DecodeFields(fields, s0, slots, {})
             == if done then Some((current, seen)) else DecodeFields(fields, stream.Rest(), current, seen)
      decreases !done, stream.bytesLeft
    {
      ghost var s := stream.Rest();
      TagShrinks(s);
      LastStep(fields, s, current, seen);
      var t := stream.DecodeTag();
      if t.Bad? {
        return None;
      }
      if t.End? {
        done := true;
      } else {
        ghost var rest := stream.Rest();
        var found := iter.Find(t.tag);
        if !found {
          SkipStep(fields, s, current, seen);
          SkipShrinks(t.wire, rest);
          var ok := stream.Skip(t.wire);
          if !ok {
            return None;
          }
        } else {
          if fields == [] {
            return None;
          }
          var i := iter.pos;
          FieldStep(fields, s, current, seen, i);
          DecodeFieldShrinks(fields[i], t.wire, rest, current[i]);
          bits := MarkSeen(iter, bits, seen);
          var slot := DecodeFieldFrom(stream, fields[i], t.wire, current[i]);
          if slot.None? {
            return None;
          }
          seen := Marked(fields, i, seen);
          current := SetSlot(fields, current, i, slot.value);
        }
      }
    }
    LastStep(fields, stream.Rest(), current, seen);
    var required := CountRequired(iter);
    var ok := CheckRequired(bits, required, seen);
    return if ok then Some(current) else None;
  }

  /** pb_decode: into a message at its defaults. */
  method DecodeFrom(stream: IStream, fields: seq<Field>) returns (r: Option<seq<Slot>>)
    requires stream.Valid() && DescriptorOk(fields)
    modifies stream
    ensures r == Decode(fields, old(stream.Rest()))
  {
    r := DecodeNoInit(stream, fields, Defaults(fields));
  }
}
