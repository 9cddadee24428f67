/** Fixed-width numbers, varints and length-prefixed strings (util/coding.h, util/coding.cc). */
module Coding {
  import opened Keys

  const TWO32 := 0x1_0000_0000
  const TWO64 := 0x1_0000_0000_0000_0000

  type Uint32 = n: nat | n < TWO32
  type Uint64 = n: nat | n < TWO64

  /** What a parser of the front of a string gives: the value and the bytes after it. */
  datatype Parsed<+T> = Parsed(value: T, rest: Bytes)

  // Fixed width, least significant byte first.

  function Fixed(v: nat, width: nat): (r: Bytes)
    ensures |r| == width
  {
    if width == 0 then [] else [v % 256] + Fixed(v / 256, width - 1)
  }

  function FixedValue(s: Bytes): nat {
    if s == [] then 0 else s[0] + 256 * FixedValue(s[1..])
  }

  /** Bit i of a number, from the least significant on. */
  predicate BitSet(n: nat, i: nat) {
    if i == 0 then n % 2 == 1 else BitSet(n / 2, i - 1)
  }

  function Power(base: nat, n: nat): nat {
    if n == 0 then 1 else base * Power(base, n - 1)
  }

  /** The bits of two numbers put next to each other. */
  lemma {:induction false} JoinedBits(high: nat, low: nat, k: nat, i: nat)
    requires low < Power(2, k)
    ensures BitSet(high * Power(2, k) + low, i) <==> if i < k then BitSet(low, i) else BitSet(high, i - k)
  {
    if k > 0 {
      var m := Power(2, k - 1);
      assert Power(2, k) == 2 * m;
      var n := high * (2 * m) + low;
      HalfJoined(high, low, m);
      if i > 0 {
        JoinedBits(high, low / 2, k - 1, i - 1);
      }
    }
  }

  lemma HalfJoined(high: nat, low: nat, m: nat)
    ensures (high * (2 * m) + low) / 2 == high * m + low / 2 && (high * (2 * m) + low) % 2 == low % 2
  {
    var n := high * m;
    assert high * (2 * m) == 2 * n;
  }

  lemma {:induction false} FixedRoundTrip(v: nat, width: nat)
    requires v < Power(256, width)
    ensures FixedValue(Fixed(v, width)) == v
  {
    if width > 0 {
      assert v / 256 < Power(256, width - 1);
      FixedRoundTrip(v / 256, width - 1);
      assert Fixed(v, width)[1..] == Fixed(v / 256, width - 1);
    }
  }

  lemma {:induction false} FixedValueBound(s: Bytes)
    ensures FixedValue(s) < Power(256, |s|)
  {
    if s != [] {
      FixedValueBound(s[1..]);
    }
  }

  lemma Powers()
    ensures Power(256, 4) == TWO32 && Power(256, 8) == TWO64
  {
    assert Power(256, 2) == 65536;
    assert Power(256, 6) == 256 * (256 * Power(256, 4));
  }

  /** And the other way round: bytes are those of the number they stand for. */
  lemma {:induction false} FixedBack(s: Bytes)
    ensures Fixed(FixedValue(s), |s|) == s
  {
    if s != [] {
      FixedBack(s[1..]);
      var v := FixedValue(s);
      assert v % 256 == s[0] && v / 256 == FixedValue(s[1..]);
    }
  }

  function EncodeFixed32(v: Uint32): (r: Bytes)
    ensures |r| == 4 && DecodeFixed32(r) == v
  {
    Powers();
    FixedRoundTrip(v, 4);
    Fixed(v, 4)
  }

  function DecodeFixed32(s: Bytes): Uint32
    requires |s| == 4
  {
    Powers();
    FixedValueBound(s);
    FixedValue(s)
  }

  function EncodeFixed64(v: Uint64): (r: Bytes)
    ensures |r| == 8 && DecodeFixed64(r) == v
  {
    Powers();
    FixedRoundTrip(v, 8);
    Fixed(v, 8)
  }

  function DecodeFixed64(s: Bytes): Uint64
    requires |s| == 8
  {
    Powers();
    FixedValueBound(s);
    FixedValue(s)
  }

  // Varints: seven bits a byte, the high bit set on all but the last.

  function Varint(v: nat): Bytes {
    if v < 128 then [v] else [v % 128 + 128] + Varint(v / 128)
  }

  /** The varint at the front of s, looking at no more than `limit` bytes. */
  function VarintAt(s: Bytes, limit: nat): Option<Parsed<nat>>
    decreases limit
  {
    if limit == 0 || s == [] then None
    else if s[0] < 128 then Some(Parsed(s[0], s[1..]))
    else match VarintAt(s[1..], limit - 1)
         case None => None
         case Some(p) => Some(Parsed(s[0] - 128 + 128 * p.value, p.rest))
  }

  lemma VarintShrinks(s: Bytes, limit: nat)
    ensures VarintAt(s, limit).Some? ==> |VarintAt(s, limit).value.rest| < |s|
    decreases limit
  {
    if limit > 0 && s != [] && s[0] >= 128 {
      VarintShrinks(s[1..], limit - 1);
    }
  }

  // Concatenations, regrouped.

  lemma BesideNothing()
    ensures forall b: Bytes :: [] + b == b && b + [] == b
  {
  }

  lemma Regroup(a: Bytes, b: Bytes, c: Bytes)
    ensures a + b + c == a + (b + c)
  {
  }

  lemma Regroup4(a: Bytes, b: Bytes, c: Bytes, d: Bytes)
    ensures a + b + c + d == a + (b + c + d)
  {
  }

  /** A varint followed by anything is read back, and nothing of what follows it is touched. */
  lemma {:induction false} VarintRoundTrip(v: nat, rest: Bytes, limit: nat)
    requires v < Power(128, limit) && limit > 0
    ensures VarintAt(Varint(v) + rest, limit) == Some(Parsed(v, rest))
    decreases limit
  {
    var s := Varint(v) + rest;
    if v < 128 {
      assert s[0] == v && s[1..] == rest;
    } else {
      assert v / 128 < Power(128, limit - 1);
      VarintRoundTrip(v / 128, rest, limit - 1);
      assert s[1..] == Varint(v / 128) + rest;
    }
  }

  lemma VarintPowers()
    ensures Power(128, 5) == 8 * TWO32 && Power(128, 10) == 64 * TWO64
  {
    assert Power(128, 3) == 2097152;
    assert Power(128, 8) == 128 * (128 * (128 * Power(128, 5)));
  }

  /** Reading a varint back looks at `Varint` bytes only, and at most five of them for 32 bits, ten for 64. */
  lemma {:induction false} VarintSize(v: nat, limit: nat)
    requires v < Power(128, limit) && limit > 0
    ensures 1 <= |Varint(v)| <= limit
    decreases limit
  {
    if v >= 128 {
      assert v / 128 < Power(128, limit - 1);
      VarintSize(v / 128, limit - 1);
    }
  }

  method EncodeVarint32(v: Uint32) returns (r: Bytes)
    ensures r == Varint(v)
  {
    var a, b, c, d := v / 128, v / 128 / 128, v / 128 / 128 / 128, v / 128 / 128 / 128 / 128;
    if v < 0x80 {
      r := [v];
    } else if v < 0x4000 {
      r := [v % 128 + 128, a];
      assert Varint(a) == [a];
    } else if v < 0x20_0000 {
      r := [v % 128 + 128, a % 128 + 128, b];
      assert Varint(b) == [b];
      assert Varint(a) == [a % 128 + 128] + [b];
    } else if v < 0x1000_0000 {
      r := [v % 128 + 128, a % 128 + 128, b % 128 + 128, c];
      assert Varint(c) == [c];
      assert Varint(b) == [b % 128 + 128] + [c];
      assert Varint(a) == [a % 128 + 128] + [b % 128 + 128, c];
    } else {
      r := [v % 128 + 128, a % 128 + 128, b % 128 + 128, c % 128 + 128, d];
      assert Varint(d) == [d];
      assert Varint(c) == [c % 128 + 128] + [d];
      assert Varint(b) == [b % 128 + 128] + [c % 128 + 128, d];
      assert Varint(a) == [a % 128 + 128] + [b % 128 + 128, c % 128 + 128, d];
    }
  }

  method EncodeVarint64(v: Uint64) returns (r: Bytes)
    ensures r == Varint(v)
  {
    var w := v;
    r := [];
    while w >= 128
      invariant Varint(v) == r + Varint(w)
    {
      r := r + [w % 128 + 128];
      w := w / 128;
    }
    r := r + [w];
  }

  method VarintLength(v: Uint64) returns (n: nat)
    ensures n == |Varint(v)|
  {
    var w := v;
    n := 1;
    while w >= 128
      invariant n >= 1 && |Varint(v)| == n - 1 + |Varint(w)|
    {
      w := w / 128;
      n := n + 1;
    }
  }

  /** The value a width of bits keeps. */
  function Kept(p: Option<Parsed<nat>>, modulus: nat): Option<Parsed<nat>>
    requires modulus > 0
  {
    match p
    case None => None
    case Some(x) => Some(Parsed(x.value % modulus, x.rest))
  }

  // What the first i bytes of a longer varint contribute, plus what the rest of it gives.
  function Prefixed(low: nat, scale: nat, p: Option<Parsed<nat>>): Option<Parsed<nat>> {
    match p
    case None => None
    case Some(x) => Some(Parsed(low + scale * x.value, x.rest))
  }

  lemma PrefixedStep(low: nat, scale: nat, s: Bytes, limit: nat)
    requires limit > 0 && s != [] && s[0] >= 128
    ensures Prefixed(low, scale, VarintAt(s, limit))
         == Prefixed(low + scale * (s[0] - 128), scale * 128, VarintAt(s[1..], limit - 1))
  {
    match VarintAt(s[1..], limit - 1)
    case None =>
    case Some(x) =>
      assert scale * (s[0] - 128 + 128 * x.value) == scale * (s[0] - 128) + scale * 128 * x.value;
  }

  lemma AddModulo(a: nat, b: nat, m: nat)
    requires m == TWO32 || m == TWO64
    ensures (a % m + b) % m == (a + b) % m
  {
    if m == TWO32 {
      assert (a % TWO32 + b) % TWO32 == (a + b) % TWO32;
    } else {
      assert (a % TWO64 + b) % TWO64 == (a + b) % TWO64;
    }
  }

  lemma PrefixedLast(low: nat, scale: nat, s: Bytes, limit: nat)
    requires limit == 0 || s == [] || s[0] < 128
    ensures Prefixed(low, scale, VarintAt(s, limit))
         == if limit == 0 || s == [] then None else Some(Parsed(low + scale * s[0], s[1..]))
  {
  }

  lemma PrefixedWhole(p: Option<Parsed<nat>>)
    ensures Prefixed(0, 1, p) == p
  {
  }

  /** The shift loop, for a word of `modulus` values and varints of up to `limit` bytes. */
  method GetVarint(s: Bytes, limit: nat, modulus: nat) returns (r: Option<Parsed<nat>>)
    requires modulus == TWO32 || modulus == TWO64
    ensures r == Kept(VarintAt(s, limit), modulus)
  {
    hide VarintAt, Prefixed;
    var result: nat, scale: nat, i := 0, 1, 0;
    ghost var exact: nat := 0;
    assert s[0..] == s;
    PrefixedWhole(VarintAt(s, limit));
    while i < limit && i < |s|
      invariant i <= limit && i <= |s|
      invariant result == exact % modulus
      invariant VarintAt(s, limit) == Prefixed(exact, scale, VarintAt(s[i..], limit - i))
    {
      var byte := s[i];
      assert s[i..][1..] == s[i+1..] && s[i..][0] == byte;
      if byte >= 128 {
        PrefixedStep(exact, scale, s[i..], limit - i);
        AddModulo(exact, scale * (byte - 128), modulus);
        result := (result + scale * (byte - 128)) % modulus;
        exact := exact + scale * (byte - 128);
        scale := scale * 128;
        i := i + 1;
      } else {
        PrefixedLast(exact, scale, s[i..], limit - i);
        AddModulo(exact, scale * byte, modulus);
        result := (result + scale * byte) % modulus;
        return Some(Parsed(result, s[i+1..]));
      }
    }
    PrefixedLast(exact, scale, s[i..], limit - i);
    return None;
  }

  /** The reader of a 32-bit varint: one byte at once, then the loop. */
  function Varint32At(s: Bytes): Option<Parsed<Uint32>> {
    match VarintAt(s, 5)
    case None => None
    case Some(p) => Some(Parsed(p.value % TWO32, p.rest))
  }

  function Varint64At(s: Bytes): Option<Parsed<Uint64>> {
    match VarintAt(s, 10)
    case None => None
    case Some(p) => Some(Parsed(p.value % TWO64, p.rest))
  }

  method GetVarint32(s: Bytes) returns (r: Option<Parsed<Uint32>>)
    ensures r == Varint32At(s)
  {
    if s != [] && s[0] < 128 {
      return Some(Parsed(s[0], s[1..]));
    }
    var p := GetVarint(s, 5, TWO32);
    match p
    case None => r := None;
    case Some(x) => r := Some(Parsed(x.value, x.rest));
  }

  method GetVarint64(s: Bytes) returns (r: Option<Parsed<Uint64>>)
    ensures r == Varint64At(s)
  {
    var p := GetVarint(s, 10, TWO64);
    match p
    case None => r := None;
    case Some(x) => r := Some(Parsed(x.value, x.rest));
  }

  lemma Varint32RoundTrip(v: Uint32, rest: Bytes)
    ensures Varint32At(Varint(v) + rest) == Some(Parsed(v, rest))
  {
    hide VarintAt, Varint;
    VarintPowers();
    VarintRoundTrip(v, rest, 5);
  }

  lemma Varint64RoundTrip(v: Uint64, rest: Bytes)
    ensures Varint64At(Varint(v) + rest) == Some(Parsed(v, rest))
  {
    hide VarintAt, Varint;
    VarintPowers();
    VarintRoundTrip(v, rest, 10);
  }

  /** A varint of more bytes than its width allows is none. */
  lemma VarintTooLong(s: Bytes)
    ensures (forall i :: 0 <= i < 5 && i < |s| ==> s[i] >= 128) ==> Varint32At(s) == None
    ensures (forall i :: 0 <= i < 10 && i < |s| ==> s[i] >= 128) ==> Varint64At(s) == None
  {
    NoEnd(s, 5);
    NoEnd(s, 10);
  }

  lemma {:induction false} NoEnd(s: Bytes, limit: nat)
    ensures (forall i :: 0 <= i < limit && i < |s| ==> s[i] >= 128) ==> VarintAt(s, limit) == None
    decreases limit
  {
    if s != [] && limit > 0 {
      NoEnd(s[1..], limit - 1);
      assert forall i :: 0 < i < limit && i < |s| ==> s[i] == s[1..][i - 1];
    }
  }

  // Strings preceded by their length.

  function LengthPrefixed(s: Bytes): Bytes {
    Varint(|s|) + s
  }

  function LengthPrefixedAt(s: Bytes): Option<Parsed<Bytes>> {
    match Varint32At(s)
    case None => None
    case Some(p) =>
      if p.value <= |p.rest| then Some(Parsed(p.rest[..p.value], p.rest[p.value..])) else None
  }

  lemma LengthPrefixedRoundTrip(s: Bytes, rest: Bytes)
    requires |s| < TWO32
    ensures LengthPrefixedAt(LengthPrefixed(s) + rest) == Some(Parsed(s, rest))
  {
    assert LengthPrefixed(s) + rest == Varint(|s|) + (s + rest);
    Varint32RoundTrip(|s|, s + rest);
  }
}
