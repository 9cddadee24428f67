/** The Bloom filter: a filter built from some keys never denies one of them (util/bloom.cc). */
module Bloom {
  import opened Keys
  import opened Coding

  // Bits of a byte.

  // b | 1 << i
  function SetBit(b: nat, i: nat): nat {
    if i == 0 then (if b % 2 == 1 then b else b + 1) else b % 2 + 2 * SetBit(b / 2, i - 1)
  }

  /** Setting a bit sets that bit and changes no other. */
  lemma {:induction false} SetBitSets(b: nat, i: nat, j: nat)
    ensures BitSet(SetBit(b, i), j) <==> i == j || BitSet(b, j)
  {
    if i > 0 && j > 0 {
      SetBitSets(b / 2, i - 1, j - 1);
    }
  }

  lemma {:induction false} SetBitFits(b: nat, i: nat, n: nat, bound: nat)
    requires bound == Power(2, n) && b < bound && i < n
    ensures SetBit(b, i) < bound
  {
    var half := Power(2, n - 1);
    assert bound == 2 * half;
    hide Power;
    var q, r := b / 2, b % 2;
    assert b == 2 * q + r && q < half;
    if i > 0 {
      SetBitFits(q, i - 1, n - 1, half);
      assert SetBit(b, i) == r + 2 * SetBit(q, i - 1);
    }
  }

  lemma SetBitByte(b: Byte, i: nat)
    requires i < 8
    ensures SetBit(b, i) < 256
  {
    assert Power(2, 8) == 256;
    SetBitFits(b, i, 8, 256);
  }

  // A byte array as a list of bits.

  predicate BitAt(a: Bytes, pos: nat)
    requires pos / 8 < |a|
  {
    BitSet(a[pos / 8], pos % 8)
  }

  /** Bits are only ever set. */
  ghost predicate Grows(a: Bytes, b: Bytes) {
    |a| == |b| && forall pos: nat :: pos / 8 < |a| && BitAt(a, pos) ==> BitAt(b, pos)
  }

  // Probes.

  // Rotate right by 17 bits.
  function Delta(h: Uint32): Uint32 {
    h / 0x2_0000 + h % 0x2_0000 * 0x8000
  }

  lemma DeltaBits(h: Uint32, i: nat)
    requires i < 32
    ensures BitSet(Delta(h), i) <==> BitSet(h, (i + 17) % 32)
  {
    var high, low := h / 0x2_0000, h % 0x2_0000;
    PowersOfDelta();
    hide Power, BitSet;
    JoinedBits(low, high, 15, i);
    JoinedBits(high, low, 17, (i + 17) % 32);
  }

  lemma PowersOfDelta()
    ensures Power(2, 15) == 0x8000 && Power(2, 17) == 0x2_0000
  {
    assert Power(2, 8) == 256;
  }

  /** The j-th hash of a key. */
  function Probe(h: Uint32, j: nat): Uint32 {
    if j == 0 then h else (Probe(h, j - 1) + Delta(h)) % TWO32
  }

  lemma {:induction false} ProbeIs(h: Uint32, j: nat)
    ensures Probe(h, j) == (h + j * Delta(h)) % TWO32
  {
    if j > 0 {
      ProbeIs(h, j - 1);
      var before := h + (j - 1) * Delta(h);
      assert h + j * Delta(h) == before + Delta(h);
      AddModulo(before, Delta(h), TWO32);
    }
  }

  /** All k bits of a key are set. */
  ghost predicate Matches(a: Bytes, h: Uint32, k: nat)
    requires |a| > 0
  {
    forall j: nat :: j < k ==> BitAt(a, Probe(h, j) % (8 * |a|))
  }

  lemma MatchesGrow(a: Bytes, b: Bytes, h: Uint32, k: nat)
    requires |a| > 0 && Matches(a, h, k) && Grows(a, b)
    ensures Matches(b, h, k)
  {
    forall j: nat | j < k ensures BitAt(b, Probe(h, j) % (8 * |b|)) {
      assert BitAt(a, Probe(h, j) % (8 * |a|));
    }
  }

  method SetBitAt(a: Bytes, pos: nat) returns (r: Bytes)
    requires pos / 8 < |a|
    ensures |r| == |a| && forall p: nat :: p / 8 < |a| ==> (BitAt(r, p) <==> p == pos || BitAt(a, p))
  {
    SetBitByte(a[pos / 8], pos % 8);
    r := a[pos / 8 := SetBit(a[pos / 8], pos % 8)];
    forall p: nat | p / 8 < |a| ensures BitAt(r, p) <==> p == pos || BitAt(a, p) {
      SetBitSets(a[pos / 8], pos % 8, p % 8);
    }
  }

  /** A position is one of the first k hashes of a key. */
  ghost predicate ProbedBy(h: Uint32, k: nat, bits: nat, pos: nat)
    requires bits > 0
  {
    exists j: nat :: j < k && pos == Probe(h, j) % bits
  }

  /** Bits are set for the first n keys, and for j hashes of one more key, and nowhere else. */
  ghost predicate OnlyProbed(hash: Bytes -> Uint32, keys: seq<Bytes>, k: nat, a: Bytes, n: nat, more: Uint32, j: nat)
    requires a != [] && n <= |keys|
  {
    forall pos: nat :: pos / 8 < |a| && BitAt(a, pos) ==>
      ProbedBy(more, j, 8 * |a|, pos) || exists i :: 0 <= i < n && ProbedBy(hash(keys[i]), k, 8 * |a|, pos)
  }

  lemma OneMoreProbe(hash: Bytes -> Uint32, keys: seq<Bytes>, k: nat, a: Bytes, n: nat, more: Uint32, j: nat, a': Bytes)
    requires a != [] && n <= |keys| && OnlyProbed(hash, keys, k, a, n, more, j)
    requires |a'| == |a|
    requires forall p: nat :: p / 8 < |a| ==> (BitAt(a', p) <==> p == Probe(more, j) % (8 * |a|) || BitAt(a, p))
    ensures OnlyProbed(hash, keys, k, a', n, more, j + 1)
  {
    hide BitAt, Probe;
    forall pos: nat | pos / 8 < |a| && BitAt(a', pos) && ProbedBy(more, j, 8 * |a|, pos)
      ensures ProbedBy(more, j + 1, 8 * |a|, pos)
    {
      var i: nat :| i < j && pos == Probe(more, i) % (8 * |a|);
      assert i < j + 1;
    }
  }

  // With all its hashes in, a key is one of the keys of the filter.
  lemma OneMoreKey(hash: Bytes -> Uint32, keys: seq<Bytes>, k: nat, a: Bytes, n: nat, next: Uint32)
    requires a != [] && n < |keys| && OnlyProbed(hash, keys, k, a, n, hash(keys[n]), k)
    ensures OnlyProbed(hash, keys, k, a, n + 1, next, 0)
  {
    hide BitAt, ProbedBy;
  }

  lemma NoBits(hash: Bytes -> Uint32, keys: seq<Bytes>, k: nat, n: nat, more: Uint32)
    requires n > 0
    ensures OnlyProbed(hash, keys, k, seq(n, _ => 0), 0, more, 0)
  {
    forall pos: nat | pos / 8 < n ensures !BitAt(seq(n, _ => 0), pos) {
      ZeroBits(pos % 8);
    }
  }

  lemma {:induction false} ZeroBits(i: nat)
    ensures !BitSet(0, i)
  {
    if i > 0 {
      ZeroBits(i - 1);
    }
  }

  /** CreateFilter: the bits of every key, and the number of probes behind them. */
  method CreateFilter(hash: Bytes -> Uint32, keys: seq<Bytes>, bitsPerKey: nat, k: nat) returns (filter: Bytes)
    requires 1 <= k <= 30
    ensures |filter| >= 2 && filter[|filter| - 1] == k
    ensures |filter| - 1 == if |keys| * bitsPerKey < 64 then 8 else (|keys| * bitsPerKey + 7) / 8
    ensures forall key :: key in keys ==> Matches(filter[..|filter| - 1], hash(key), k)
    ensures OnlyProbed(hash, keys, k, filter[..|filter| - 1], |keys|, 0, 0)
  {
    hide BitSet, SetBit, Probe, Delta, OnlyProbed, BitAt;
    var bits := |keys| * bitsPerKey;
    if bits < 64 {
      bits := 64;
    }
    var bytes := (bits + 7) / 8;
    bits := bytes * 8;
    var a: Bytes := seq(bytes, _ => 0);
    NoBits(hash, keys, k, bytes, if keys == [] then 0 else hash(keys[0]));
    for i := 0 to |keys|
      invariant |a| == bytes
      invariant forall n :: 0 <= n < i ==> Matches(a, hash(keys[n]), k)
      invariant OnlyProbed(hash, keys, k, a, i, if i < |keys| then hash(keys[i]) else 0, 0)
    {
      ghost var before := a;
      var h := hash(keys[i]);
      var delta := Delta(h);
      ghost var first := h;
      ProbeNext(first, 0);
      for j := 0 to k
        invariant |a| == bytes && Grows(before, a) && h == Probe(first, j)
        invariant Matches(a, first, j) && OnlyProbed(hash, keys, k, a, i, first, j)
      {
        var bitPos := h % bits;
        ghost var earlier := a;
        a := SetBitAt(a, bitPos);
        OneMoreProbe(hash, keys, k, earlier, i, first, j, a);
        MatchesGrow(earlier, a, first, j);
        GrowsOn(before, earlier, a);
        ProbeNext(first, j);
        h := (h + delta) % TWO32;
      }
      forall n | 0 <= n < i ensures Matches(a, hash(keys[n]), k) {
        MatchesGrow(before, a, hash(keys[n]), k);
      }
      OneMoreKey(hash, keys, k, a, i, if i + 1 < |keys| then hash(keys[i + 1]) else 0);
    }
    filter := a + [k];
    assert filter[..|filter| - 1] == a;
  }

  lemma GrowsOn(a: Bytes, b: Bytes, c: Bytes)
    requires Grows(a, b) && Grows(b, c)
    ensures Grows(a, c)
  {
  }

  lemma ProbeNext(h: Uint32, j: nat)
    ensures Probe(h, j + 1) == (Probe(h, j) + Delta(h)) % TWO32
    ensures Probe(h, 0) == h
  {
  }

  /** What KeyMayMatch answers. A filter too short matches nothing, one of an unknown kind everything. */
  ghost predicate MayMatch(filter: Bytes, h: Uint32) {
    |filter| >= 2 &&
    var k := filter[|filter| - 1];
    k > 30 || Matches(filter[..|filter| - 1], h, k)
  }

  /** A filter too short to hold a bit matches nothing, and one of more than thirty probes, which is left to filters of
      another kind, everything. */
  lemma OtherFilters(filter: Bytes, h: Uint32)
    ensures |filter| < 2 ==> !MayMatch(filter, h)
    ensures |filter| >= 2 && filter[|filter| - 1] > 30 ==> MayMatch(filter, h)
  {
  }

  method KeyMayMatch(hash: Bytes -> Uint32, key: Bytes, filter: Bytes) returns (r: bool)
    ensures r <==> MayMatch(filter, hash(key))
  {
    hide BitSet, Probe, Delta;
    var len := |filter|;
    if len < 2 {
      return false;
    }
    var bits := (len - 1) * 8;
    var k := filter[len - 1];
    if k > 30 {
      return true;
    }
    ghost var a := filter[..len - 1];
    var h := hash(key);
    var delta := Delta(h);
    ghost var first := h;
    ProbeNext(first, 0);
    for j := 0 to k
      invariant h == Probe(first, j) && Matches(a, first, j)
    {
      var bitPos := h % bits;
      if !BitSet(filter[bitPos / 8], bitPos % 8) {
        assert !BitAt(a, Probe(first, j) % (8 * |a|));
        return false;
      }
      ProbeNext(first, j);
      h := (h + delta) % TWO32;
    }
    return true;
  }
}
