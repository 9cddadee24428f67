/** Reading a block: an iterator that parses entries one after another and searches the restart points, in
    step with a cursor on the list of pairs (table/block.cc). */
module BlockReader {
  import opened Keys
  import opened Coding
  import opened BlockFormat

  /** The three lengths at the front of an entry, and where its key bytes begin. */
  datatype EntryHead = EntryHead(shared: nat, nonShared: nat, valueLength: nat, keyStart: nat)

  // Three varints, the slow way.
  function ThreeVarints(s: Bytes): Option<Parsed<(nat, nat, nat)>> {
    match Varint32At(s)
    case None => None
    case Some(a) =>
      match Varint32At(a.rest)
      case None => None
      case Some(b) =>
        match Varint32At(b.rest)
        case None => None
        case Some(c) => Some(Parsed((a.value, b.value, c.value), c.rest))
  }

  lemma ThreeBytes(s: Bytes)
    requires |s| >= 3 && s[0] < 128 && s[1] < 128 && s[2] < 128
    ensures ThreeVarints(s) == Some(Parsed((s[0], s[1], s[2]), s[3..]))
  {
    assert s[1..][0] == s[1] && s[1..][1..] == s[2..] && s[2..][0] == s[2] && s[2..][1..] == s[3..];
  }

  lemma ThreeRoundTrip(a: Uint32, b: Uint32, c: Uint32, rest: Bytes)
    ensures ThreeVarints(Varint(a) + Varint(b) + Varint(c) + rest) == Some(Parsed((a, b, c), rest))
  {
    hide Varint, Varint32At;
    var s := Varint(a) + Varint(b) + Varint(c) + rest;
    assert s == Varint(a) + (Varint(b) + (Varint(c) + rest));
    Varint32RoundTrip(a, Varint(b) + (Varint(c) + rest));
    Varint32RoundTrip(b, Varint(c) + rest);
    Varint32RoundTrip(c, rest);
  }

  lemma RestIsSuffix(s: Bytes, limit: nat)
    ensures match VarintAt(s, limit)
            case None => true
            case Some(p) => |p.rest| < |s| && p.rest == s[|s| - |p.rest|..]
    decreases limit
  {
    if limit > 0 && s != [] && s[0] >= 128 {
      RestIsSuffix(s[1..], limit - 1);
    }
  }

  lemma ThreeSuffix(s: Bytes)
    ensures match ThreeVarints(s)
            case None => true
            case Some(p) => |p.rest| + 3 <= |s| && p.rest == s[|s| - |p.rest|..]
  {
    hide VarintAt;
    RestIsSuffix(s, 5);
    if Varint32At(s).Some? {
      var a := Varint32At(s).value.rest;
      RestIsSuffix(a, 5);
      if Varint32At(a).Some? {
        RestIsSuffix(Varint32At(a).value.rest, 5);
      }
    }
  }

  /** What stands at position p: the lengths, if they parse and the bytes they promise are there. */
  function HeadAt(data: Bytes, p: nat, limit: nat): Option<EntryHead>
    requires p <= limit <= |data|
  {
    hide ThreeVarints, VarintAt;
    ThreeSuffix(data[p..limit]);
    if limit - p < 3 then None else
    match ThreeVarints(data[p..limit])
    case None => None
    case Some(t) =>
      var (shared, nonShared, valueLength) := t.value;
      if |t.rest| < nonShared + valueLength then None
      else Some(EntryHead(shared, nonShared, valueLength, limit - |t.rest|))
  }

  /** DecodeEntry, with its fast path for three lengths of one byte each. */
  method DecodeEntry(data: Bytes, p: nat, limit: nat) returns (r: Option<EntryHead>)
    requires p <= limit <= |data| < TWO32
    ensures r == HeadAt(data, p, limit)
  {
    hide Varint32At;
    if limit - p < 3 {
      return None;
    }
    var s := data[p..limit];
    ThreeSuffix(s);
    var shared, nonShared, valueLength, rest;
    if s[0] < 128 && s[1] < 128 && s[2] < 128 {
      ThreeBytes(s);
      shared, nonShared, valueLength, rest := s[0], s[1], s[2], s[3..];
    } else {
      var a := GetVarint32(s);
      if a.None? {
        return None;
      }
      var b := GetVarint32(a.value.rest);
      if b.None? {
        return None;
      }
      var c := GetVarint32(b.value.rest);
      if c.None? {
        return None;
      }
      shared, nonShared, valueLength, rest := a.value.value, b.value.value, c.value.value, c.value.rest;
    }
    if |rest| < nonShared + valueLength {
      return None;
    }
    return Some(EntryHead(shared, nonShared, valueLength, limit - |rest|));
  }

  /** An entry written at p parses back to its lengths, and its bytes follow. */
  lemma EntryParses(data: Bytes, p: nat, limit: nat, key: Bytes, value: Bytes, shared: nat, end: nat)
    requires p <= end <= limit <= |data| < TWO32 && shared <= |key|
    requires data[p..end] == EncodedEntry(key, value, shared)
    requires |key| < TWO32
    ensures var h := HeadAt(data, p, limit);
            && h.Some? && h.value.shared == shared && h.value.nonShared == |key| - shared
            && h.value.valueLength == |value|
            && p < h.value.keyStart && h.value.keyStart + h.value.nonShared + h.value.valueLength == end
            && data[h.value.keyStart..h.value.keyStart + h.value.nonShared] == key[shared..]
            && data[h.value.keyStart + h.value.nonShared..end] == value
  {
    hide Varint, ThreeVarints;
    EntrySize(key, value, shared);
    var a, b, c := Varint(shared), Varint(|key| - shared), Varint(|value|);
    var tail := key[shared..] + value + data[end..limit];
    var s := data[p..limit];
    assert s == data[p..end] + data[end..limit];
    Regroup4(a + b + c, key[shared..], value, data[end..limit]);
    ThreeRoundTrip(shared, |key| - shared, |value|, tail);
    var keyStart := limit - |tail|;
    assert data[p..end] == (a + b + c) + key[shared..] + value;
    PartsOf(data, p, end, a + b + c, key[shared..], value);
  }

  lemma PartsOf(data: Bytes, p: nat, end: nat, head: Bytes, key: Bytes, value: Bytes)
    requires p <= end <= |data| && data[p..end] == head + key + value
    ensures data[p + |head|..p + |head| + |key|] == key && data[p + |head| + |key|..end] == value
  {
    var part, front := data[p..end], head + key;
    assert part == front + value;
    assert part[..|front|] == front && part[|front|..] == value && front[|head|..] == key;
    forall i | 0 <= i < |key| ensures data[p + |head|..p + |head| + |key|][i] == key[i] {
      assert part[|head| + i] == front[|head| + i];
    }
    assert data[p + |head| + |key|..end] == part[|front|..];
  }

  lemma HeadFits(data: Bytes, p: nat, limit: nat)
    requires p <= limit <= |data|
    ensures match HeadAt(data, p, limit)
            case None => true
            case Some(h) => p + 3 <= h.keyStart && h.keyStart + h.nonShared + h.valueLength <= limit
  {
    hide ThreeVarints;
    ThreeSuffix(data[p..limit]);
  }

  /** The entry at p ends at `end`, and after a key `before` it stands for a pair. */
  ghost predicate StandsFor(data: Bytes, p: nat, end: nat, limit: nat, before: Bytes, pair: Pair) {
    && p + 3 <= end <= limit <= |data| && HeadAt(data, p, limit).Some?
    && var h := HeadAt(data, p, limit).value;
       && h.shared <= |before| && h.keyStart + h.nonShared + h.valueLength == end && h.keyStart + h.nonShared <= |data|
       && before[..h.shared] + data[h.keyStart..h.keyStart + h.nonShared] == pair.key
       && data[h.keyStart + h.nonShared..end] == pair.value
  }

  lemma EntryStandsFor(data: Bytes, p: nat, end: nat, limit: nat, before: Bytes, pair: Pair, shared: nat)
    requires p + 3 <= end <= limit <= |data| < TWO32 && |pair.key| < TWO32
    requires shared <= |before| && shared <= |pair.key| && before[..shared] == pair.key[..shared]
    requires data[p..end] == EncodedEntry(pair.key, pair.value, shared)
    ensures StandsFor(data, p, end, limit, before, pair)
  {
    hide HeadAt, EncodedEntry;
    EntryParses(data, p, limit, pair.key, pair.value, shared, end);
    var h := HeadAt(data, p, limit).value;
    Joined(pair.key, shared, before[..shared], data[h.keyStart..h.keyStart + h.nonShared]);
  }

  /** Parsing on from the end of one entry gives the key and value of the next. */
  lemma NextEntry(l: Layout, i: nat, key: Bytes)
    requires Sound(l) && |BlockBytes(l)| < TWO32 && i < |l.pairs| && |l.pairs[i].key| < TWO32
    requires l.shared[i] == 0 || (0 < i && key == l.pairs[i - 1].key)
    ensures StandsFor(BlockBytes(l), Offset(l, i), Offset(l, i + 1), Offset(l, |l.pairs|), key, l.pairs[i])
  {
    SharedFront(l, i, key);
    hide *;
    EntryAt(l, i);
    EntryStandsFor(BlockBytes(l), Offset(l, i), Offset(l, i + 1), Offset(l, |l.pairs|), key, l.pairs[i], l.shared[i]);
  }

  lemma Joined(s: Bytes, n: nat, front: Bytes, back: Bytes)
    requires n <= |s| && front == s[..n] && back == s[n..]
    ensures front + back == s
  {
  }

  lemma SharedFront(l: Layout, i: nat, key: Bytes)
    requires Sound(l) && i < |l.pairs|
    requires l.shared[i] == 0 || (0 < i && key == l.pairs[i - 1].key)
    ensures |l.shared| == |l.pairs| && l.shared[i] <= |key| && l.shared[i] <= |l.pairs[i].key|
    ensures key[..l.shared[i]] == l.pairs[i].key[..l.shared[i]]
  {
  }
}
