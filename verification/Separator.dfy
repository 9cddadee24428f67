/** Internal keys as bytes, their order, and the short keys that part one block from the next
    (db/dbformat.h, db/dbformat.cc, util/comparator.cc). */
module Separators {
  import opened Keys
  import opened Coding
  import BlockIters

  // Keys as bytes: the user key, then sequence number and kind packed in eight bytes.

  lemma PackedFits(k: InternalKey)
    ensures k.Packed() < TWO64
  {
    assert k.kind.Code() < 256;
  }

  function EncodeKey(k: InternalKey): (r: Bytes)
    ensures |r| == |k.user| + 8
  {
    PackedFits(k);
    k.user + EncodeFixed64(k.Packed())
  }

  function ExtractUserKey(b: Bytes): Bytes {
    if |b| < 8 then [] else b[..|b| - 8]
  }

  function ExtractPacked(b: Bytes): nat {
    if |b| < 8 then 0 else DecodeFixed64(b[|b| - 8..])
  }

  /** ParseInternalKey: there must be room for the packed word, and the kind must be one there is. */
  function ParseInternalKey(b: Bytes): Option<InternalKey> {
    if |b| < 8 then None else
    var packed := DecodeFixed64(b[|b| - 8..]);
    if packed % 256 == 0 then Some(InternalKey(b[..|b| - 8], packed / 256, Deletion))
    else if packed % 256 == 1 then Some(InternalKey(b[..|b| - 8], packed / 256, Value))
    else None
  }

  /** InternalKeyComparator::Compare, as an order on bytes. */
  predicate BytesLess(a: Bytes, b: Bytes) {
    Less(ExtractUserKey(a), ExtractUserKey(b)) || (ExtractUserKey(a) == ExtractUserKey(b) && ExtractPacked(a) > ExtractPacked(b))
  }

  lemma ExtractEncoded(k: InternalKey)
    ensures ExtractUserKey(EncodeKey(k)) == k.user && ExtractPacked(EncodeKey(k)) == k.Packed()
  {
    PackedFits(k);
    assert EncodeKey(k)[|k.user|..] == EncodeFixed64(k.Packed());
  }

  lemma ParseEncoded(k: InternalKey)
    ensures ParseInternalKey(EncodeKey(k)) == Some(k)
  {
    hide EncodeFixed64, DecodeFixed64;
    ExtractEncoded(k);
    PackedParts(k);
    assert EncodeKey(k)[..|k.user|] == k.user;
  }

  lemma PackedParts(k: InternalKey)
    ensures k.Packed() % 256 == k.kind.Code() && k.Packed() / 256 == k.seqno
  {
  }

  /** The order on bytes is the order on keys. */
  lemma EncodedOrder(a: InternalKey, b: InternalKey)
    ensures BytesLess(EncodeKey(a), EncodeKey(b)) <==> KeyLess(a, b)
  {
    ExtractEncoded(a);
    ExtractEncoded(b);
  }

  lemma BytesOrder()
    ensures BlockIters.StrictOrder(BytesLess)
  {
    UserOrder();
    var less := BytesLess;
    forall a, b, c {:trigger less(a, b), less(a, c)} | less(a, b) ensures less(a, c) || less(c, b) {
    }
  }

  // Separators of user keys.

  /** What FindShortestSeparator makes of two strings: the first shortened after its first difference from the
      second, with that byte increased, if that still comes before the second. */
  function Separator(start: Bytes, limit: Bytes): Bytes {
    if start == [] || limit == [] then start
    else if start[0] == limit[0] then [start[0]] + Separator(start[1..], limit[1..])
    else if start[0] < 255 && start[0] + 1 < limit[0] then [start[0] + 1]
    else start
  }

  /** It comes no earlier than the first and before the second, and is the first itself unless it is shorter or
      comes later. */
  lemma {:induction false} SeparatorBetween(start: Bytes, limit: Bytes)
    requires Less(start, limit)
    ensures AtMost(start, Separator(start, limit)) && Less(Separator(start, limit), limit)
    ensures |Separator(start, limit)| <= |start|
    ensures Separator(start, limit) == start || Less(start, Separator(start, limit))
  {
    LessIrreflexive(start);
    if start != [] && start[0] == limit[0] {
      SeparatorBetween(start[1..], limit[1..]);
      var rest := Separator(start[1..], limit[1..]);
      assert ([start[0]] + rest)[1..] == rest;
      assert start == [start[0]] + start[1..];
      if rest == start[1..] {
        assert Separator(start, limit) == start;
      } else {
        LessAsymmetric(start, Separator(start, limit));
      }
    } else if start != [] {
      if Separator(start, limit) != start {
        assert Less(start, [start[0] + 1]);
        LessAsymmetric(start, [start[0] + 1]);
      }
    }
  }

  lemma LessAsymmetric(a: Bytes, b: Bytes)
    requires Less(a, b)
    ensures AtMost(a, b)
  {
    if Less(b, a) {
      LessTransitive(a, b, a);
      LessIrreflexive(a);
    }
  }

  lemma {:induction false} SeparatorAt(start: Bytes, limit: Bytes, n: nat)
    requires n <= |start| && n <= |limit| && start[..n] == limit[..n]
    ensures Separator(start, limit) == start[..n] + Separator(start[n..], limit[n..])
  {
    if n > 0 {
      assert start[0] == start[..n][0] == limit[..n][0] == limit[0];
      assert start[1..][..n - 1] == start[..n][1..] && limit[1..][..n - 1] == limit[..n][1..];
      SeparatorAt(start[1..], limit[1..], n - 1);
      assert start[1..][n - 1..] == start[n..] && limit[1..][n - 1..] == limit[n..];
      assert [start[0]] + start[1..][..n - 1] == start[..n];
    } else {
      assert start[0..] == start && limit[0..] == limit;
    }
  }

  /** It is shortened exactly when the first bytes that differ are two or more apart. */
  lemma SeparatorIs(start: Bytes, limit: Bytes, n: nat)
    requires n <= |start| && n <= |limit| && start[..n] == limit[..n] && (n < |start| && n < |limit| ==> start[n] != limit[n])
    ensures Separator(start, limit) ==
              if n < |start| && n < |limit| && start[n] < 255 && start[n] + 1 < limit[n] then start[..n] + [start[n] + 1] else start
  {
    SeparatorAt(start, limit, n);
    assert start == start[..n] + start[n..];
  }

  /** No string from the first up to the second is shorter than one it was shortened to. */
  lemma {:induction false} ShortestSeparator(start: Bytes, limit: Bytes, s: Bytes)
    requires Separator(start, limit) != start && AtMost(start, s) && Less(s, limit)
    ensures |Separator(start, limit)| <= |s|
  {
    if start[0] == limit[0] {
      assert start == [start[0]] + start[1..];
      ShortestSeparator(start[1..], limit[1..], s[1..]);
    }
  }

  method FindShortestSeparator(start: Bytes, limit: Bytes) returns (r: Bytes)
    ensures r == Separator(start, limit)
  {
    var minLength := if |start| < |limit| then |start| else |limit|;
    var diff := 0;
    while diff < minLength && start[diff] == limit[diff]
      invariant diff <= minLength && start[..diff] == limit[..diff]
    {
      assert start[..diff + 1] == start[..diff] + [start[diff]] && limit[..diff + 1] == limit[..diff] + [limit[diff]];
      diff := diff + 1;
    }
    SeparatorAt(start, limit, diff);
    assert start == start[..diff] + start[diff..];
    r := start;
    if diff < minLength {
      var byte := start[diff];
      if byte < 255 && byte + 1 < limit[diff] {
        r := start[..diff] + [byte + 1];
      }
    }
  }

  /** What FindShortSuccessor makes of a string: it ends at the first byte that is not 0xff, increased. */
  function Successor(key: Bytes): Bytes {
    if key == [] then [] else if key[0] != 255 then [key[0] + 1] else [key[0]] + Successor(key[1..])
  }

  lemma {:induction false} SuccessorAfter(key: Bytes)
    ensures |Successor(key)| <= |key| && (Successor(key) == key || Less(key, Successor(key)))
  {
    if key != [] && key[0] == 255 {
      SuccessorAfter(key[1..]);
      assert Successor(key)[1..] == Successor(key[1..]);
      assert key == [key[0]] + key[1..];
    }
  }

  lemma {:induction false} SuccessorAt(key: Bytes, n: nat)
    requires n <= |key| && forall i :: 0 <= i < n ==> key[i] == 255
    ensures Successor(key) == key[..n] + Successor(key[n..])
  {
    if n > 0 {
      SuccessorAt(key[1..], n - 1);
      assert key[1..][n - 1..] == key[n..] && [key[0]] + key[1..][..n - 1] == key[..n];
    } else {
      assert key[0..] == key;
    }
  }

  /** No string from the key on is shorter. */
  lemma {:induction false} ShortestSuccessor(key: Bytes, s: Bytes)
    requires AtMost(key, s)
    ensures |Successor(key)| <= |s|
  {
    if key != [] && key[0] == 255 {
      ShortestSuccessor(key[1..], s[1..]);
    }
  }

  method FindShortSuccessor(key: Bytes) returns (r: Bytes)
    ensures r == Successor(key)
  {
    for i := 0 to |key|
      invariant forall j :: 0 <= j < i ==> key[j] == 255
    {
      if key[i] != 255 {
        SuccessorAt(key, i);
        return key[..i] + [key[i] + 1];
      }
    }
    SuccessorAt(key, |key|);
    assert key[..|key|] + Successor(key[|key|..]) == key;
    return key;
  }

  // Separators of internal keys.

  function Shortened(k: InternalKey, user: Bytes): InternalKey {
    if |user| < |k.user| && Less(k.user, user) then InternalKey(user, MAX_SEQUENCE, KIND_FOR_SEEK) else k
  }

  function InternalSeparator(start: InternalKey, limit: InternalKey): InternalKey {
    Shortened(start, Separator(start.user, limit.user))
  }

  function InternalSuccessor(k: InternalKey): InternalKey {
    Shortened(k, Successor(k.user))
  }

  /** A separator stands from the last key of one block up to, but not including, the first key of the next. A key
      after the former and not after the separator belongs to a user key before that of the latter. */
  lemma InternalSeparatorBetween(start: InternalKey, limit: InternalKey, k: InternalKey)
    requires KeyLess(start, limit)
    ensures var sep := InternalSeparator(start, limit);
            && !KeyLess(sep, start) && KeyLess(sep, limit)
            && (KeyLess(start, k) && !KeyLess(sep, k) ==> Less(k.user, limit.user))
  {
    KeyOrder();
    UserOrder();
    var user := Separator(start.user, limit.user);
    if Less(start.user, limit.user) {
      SeparatorBetween(start.user, limit.user);
    }
    if |user| < |start.user| && Less(start.user, user) {
      if start.user == limit.user {
        SameSeparator(start.user);
      }
      assert !KeyLess(InternalKey(user, MAX_SEQUENCE, KIND_FOR_SEEK), k) ==> !Less(user, k.user);
    }
  }

  /** Internal keys are shortened as much as user keys are. */
  lemma InternalKeysShortened(start: InternalKey, limit: InternalKey)
    requires Less(start.user, limit.user)
    ensures |InternalSeparator(start, limit).user| == |Separator(start.user, limit.user)|
    ensures |InternalSuccessor(start).user| == |Successor(start.user)|
  {
    SeparatorBetween(start.user, limit.user);
    SuccessorAfter(start.user);
  }

  lemma {:induction false} SameSeparator(s: Bytes)
    ensures Separator(s, s) == s
  {
    if s != [] {
      SameSeparator(s[1..]);
      assert s == [s[0]] + s[1..];
    }
  }

  lemma InternalSuccessorAfter(k: InternalKey)
    ensures !KeyLess(InternalSuccessor(k), k)
  {
    KeyOrder();
    UserOrder();
  }

  method FindInternalSeparator(start: InternalKey, limit: InternalKey) returns (r: InternalKey)
    ensures r == InternalSeparator(start, limit)
  {
    var tmp := FindShortestSeparator(start.user, limit.user);
    if |tmp| < |start.user| && Less(start.user, tmp) {
      return InternalKey(tmp, MAX_SEQUENCE, KIND_FOR_SEEK);
    }
    return start;
  }

  method FindInternalSuccessor(k: InternalKey) returns (r: InternalKey)
    ensures r == InternalSuccessor(k)
  {
    var tmp := FindShortSuccessor(k.user);
    if |tmp| < |k.user| && Less(k.user, tmp) {
      return InternalKey(tmp, MAX_SEQUENCE, KIND_FOR_SEEK);
    }
    return k;
  }
}
