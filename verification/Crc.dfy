/** The CRC32C checksum: the table-driven loop that takes four bytes at a time against the
    bit-by-bit definition, and the masking of stored checksums (util/crc32c.cc, util/crc32c.h).
    Words are lists of 32 bits, least significant first. */
module Crc32c {
  import opened Keys
  import opened Coding

  type Word = w: seq<bool> | |w| == 32 witness seq(32, _ => false)

  function Zeros(n: nat): seq<bool> {
    seq(n, _ => false)
  }

  function Xor(x: Word, y: Word): Word {
    seq(32, i requires 0 <= i < 32 => x[i] != y[i])
  }

  function Half(x: Word): Word {
    x[1..] + [false]
  }

  function LowByte(x: Word): Word {
    x[..8] + Zeros(24)
  }

  function HighBytes(x: Word): Word {
    Zeros(8) + x[8..]
  }

  // x >> 8
  function DropByte(x: Word): Word {
    x[8..] + Zeros(8)
  }

  function BitsOf(n: nat, count: nat): (r: seq<bool>)
    ensures |r| == count
  {
    if count == 0 then [] else [n % 2 == 1] + BitsOf(n / 2, count - 1)
  }

  function ToInt(w: seq<bool>): nat {
    if w == [] then 0 else (if w[0] then 1 else 0) + 2 * ToInt(w[1..])
  }

  // The Castagnoli polynomial, bits reversed.
  function Polynomial(): Word {
    BitsOf(0x82f6_3b78, 32)
  }

  function AllOnes(): Word {
    seq(32, _ => true)
  }

  /** One bit of polynomial division. */
  function Bit(x: Word): Word {
    if x[0] then Xor(Half(x), Polynomial()) else Half(x)
  }

  function Bits(x: Word, n: nat): Word
    decreases n
  {
    if n == 0 then x else Bits(Bit(x), n - 1)
  }

  function Bits8(x: Word): Word {
    Bits(x, 8)
  }

  function FromByte(b: Byte): Word {
    BitsOf(b, 8) + Zeros(24)
  }

  /** The definition: the running word absorbs a byte and is divided by its eight bits. */
  function Absorb(l: Word, b: Byte): Word {
    Bits8(Xor(l, FromByte(b)))
  }

  function AbsorbAll(l: Word, data: Bytes): Word {
    if data == [] then l else Absorb(AbsorbAll(l, data[..|data|-1]), data[|data|-1])
  }

  function Crc(crc: Word, data: Bytes): Word {
    Xor(AbsorbAll(Xor(crc, AllOnes()), data), AllOnes())
  }

  // The tables the loop uses: each maps a byte, widened to a word.

  function Table0(i: Word): Word { Bits8(i) }
  function Table1(i: Word): Word { Bits8(Table0(i)) }
  function Table2(i: Word): Word { Bits8(Table1(i)) }
  function Table3(i: Word): Word { Bits8(Table2(i)) }

  lemma XorTwice(a: Word, b: Word)
    ensures Xor(Xor(a, b), b) == a
  {
  }

  lemma BitLinear(x: Word, y: Word)
    ensures Bit(Xor(x, y)) == Xor(Bit(x), Bit(y))
  {
  }

  lemma {:induction false} BitsLinear(x: Word, y: Word, n: nat)
    ensures Bits(Xor(x, y), n) == Xor(Bits(x, n), Bits(y, n))
    decreases n
  {
    hide Bit, Xor;
    if n > 0 {
      BitLinear(x, y);
      BitsLinear(Bit(x), Bit(y), n - 1);
    }
  }

  /** With k low bits clear, k steps of division only shift. */
  lemma {:induction false} ClearBitsShift(x: Word, k: nat)
    requires k <= 32 && forall i :: 0 <= i < k ==> !x[i]
    ensures Bits(x, k) == x[k..] + Zeros(k)
    decreases k
  {
    hide Xor;
    if k > 0 {
      ClearBitsShift(Half(x), k - 1);
      assert Half(x)[k-1..] + Zeros(k-1) == x[k..] + Zeros(k);
    } else {
      assert x[0..] + Zeros(0) == x;
    }
  }

  /** Dividing by eight bits is the table step on the low byte. */
  lemma TableStep(x: Word)
    ensures Bits8(x) == Xor(Table0(LowByte(x)), DropByte(x))
  {
    assert x == Xor(LowByte(x), HighBytes(x));
    BitsLinear(LowByte(x), HighBytes(x), 8);
    ClearBitsShift(HighBytes(x), 8);
    assert HighBytes(x)[8..] + Zeros(8) == DropByte(x);
  }

  /** Each further table follows from the one before it by the recurrence. */
  lemma TableRecurrence(i: Word)
    ensures Table1(i) == Xor(DropByte(Table0(i)), Table0(LowByte(Table0(i))))
    ensures Table2(i) == Xor(DropByte(Table1(i)), Table0(LowByte(Table1(i))))
    ensures Table3(i) == Xor(DropByte(Table2(i)), Table0(LowByte(Table2(i))))
  {
    hide Bits8, LowByte, DropByte;
    TableStep(Table0(i));
    TableStep(Table1(i));
    TableStep(Table2(i));
    XorSwap(Table0(LowByte(Table0(i))), DropByte(Table0(i)));
    XorSwap(Table0(LowByte(Table1(i))), DropByte(Table1(i)));
    XorSwap(Table0(LowByte(Table2(i))), DropByte(Table2(i)));
  }

  lemma XorSwap(a: Word, b: Word)
    ensures Xor(a, b) == Xor(b, a)
  {
  }

  // The two steps of the loop.

  function Step1(l: Word, b: Byte): Word {
    Xor(Table0(LowByte(Xor(l, FromByte(b)))), DropByte(l))
  }

  // The little-endian word of four bytes.
  function Load(a: Byte, b: Byte, c: Byte, d: Byte): Word {
    BitsOf(a, 8) + BitsOf(b, 8) + BitsOf(c, 8) + BitsOf(d, 8)
  }

  // Byte k of a word, widened to a word.
  function ByteAt(w: Word, k: nat): Word
    requires k < 4
  {
    w[8*k..8*k+8] + Zeros(24)
  }

  function Step4(l: Word, a: Byte, b: Byte, c: Byte, d: Byte): Word {
    var w := Xor(l, Load(a, b, c, d));
    Xor(Xor(Xor(Table3(ByteAt(w, 0)), Table2(ByteAt(w, 1))), Table1(ByteAt(w, 2))), Table0(ByteAt(w, 3)))
  }

  lemma Step1Absorbs(l: Word, b: Byte)
    ensures Step1(l, b) == Absorb(l, b)
  {
    hide Bits;
    TableStep(Xor(l, FromByte(b)));
    assert DropByte(Xor(l, FromByte(b))) == DropByte(l);
  }

  // A byte placed k bytes up in a word.
  function Raised(bits: seq<bool>, k: nat): Word
    requires |bits| == 8 && k < 4
  {
    Zeros(8*k) + bits + Zeros(24 - 8*k)
  }

  /** Dividing a raised byte by eight bits lowers it by one byte. */
  lemma LowerByte(bits: seq<bool>, k: nat)
    requires |bits| == 8 && 0 < k < 4
    ensures Bits8(Raised(bits, k)) == Raised(bits, k - 1)
  {
    hide Bits, Xor;
    var r := Raised(bits, k);
    ClearBitsShift(r, 8);
    assert r[8..] + Zeros(8) == Raised(bits, k - 1);
  }

  // A byte absorbed after a division is a byte absorbed one place higher before it.
  lemma AbsorbEarlier(y: Word, bits: seq<bool>, k: nat)
    requires |bits| == 8 && k < 3
    ensures Xor(Bits8(y), Raised(bits, k)) == Bits8(Xor(y, Raised(bits, k + 1)))
  {
    hide Bits, Xor, Raised;
    LowerByte(bits, k + 1);
    BitsLinear(y, Raised(bits, k + 1), 8);
  }

  function Bits32(x: Word): Word {
    Bits8(Bits8(Bits8(Bits8(x))))
  }

  lemma Bits32Linear(x: Word, y: Word)
    ensures Bits32(Xor(x, y)) == Xor(Bits32(x), Bits32(y))
  {
    hide Bits, Xor;
    BitsLinear(x, y, 8);
    BitsLinear(Bits8(x), Bits8(y), 8);
    BitsLinear(Bits8(Bits8(x)), Bits8(Bits8(y)), 8);
    BitsLinear(Bits8(Bits8(Bits8(x))), Bits8(Bits8(Bits8(y))), 8);
  }

  lemma LoadRaised(l: Word, a: seq<bool>, b: seq<bool>, c: seq<bool>, d: seq<bool>)
    requires |a| == |b| == |c| == |d| == 8
    ensures Xor(l, a + b + c + d) == Xor(Xor(Xor(Xor(l, Raised(a, 0)), Raised(b, 1)), Raised(c, 2)), Raised(d, 3))
  {
  }

  // The same over two and over three divisions.
  lemma AbsorbTwoEarlier(y: Word, bits: seq<bool>)
    requires |bits| == 8
    ensures Xor(Bits8(Bits8(y)), Raised(bits, 0)) == Bits8(Bits8(Xor(y, Raised(bits, 2))))
  {
    hide Bits8, Xor, Raised;
    AbsorbEarlier(Bits8(y), bits, 0);
    AbsorbEarlier(y, bits, 1);
  }

  lemma AbsorbThreeEarlier(y: Word, bits: seq<bool>)
    requires |bits| == 8
    ensures Xor(Bits8(Bits8(Bits8(y))), Raised(bits, 0)) == Bits8(Bits8(Bits8(Xor(y, Raised(bits, 3)))))
  {
    hide Bits8, Xor, Raised;
    AbsorbEarlier(Bits8(Bits8(y)), bits, 0);
    AbsorbEarlier(Bits8(y), bits, 1);
    AbsorbEarlier(y, bits, 2);
  }

  lemma AbsorbFour(l: Word, a: Byte, b: Byte, c: Byte, d: Byte)
    ensures Absorb(Absorb(Absorb(Absorb(l, a), b), c), d) == Bits32(Xor(l, Load(a, b, c, d)))
  {
    var ra, rb, rc, rd := BitsOf(a, 8), BitsOf(b, 8), BitsOf(c, 8), BitsOf(d, 8);
    assert FromByte(a) == Raised(ra, 0) && FromByte(b) == Raised(rb, 0);
    assert FromByte(c) == Raised(rc, 0) && FromByte(d) == Raised(rd, 0);
    hide Bits8, Xor, Raised, BitsOf, FromByte;
    var u := Xor(l, Raised(ra, 0));
    AbsorbEarlier(u, rb, 0);
    var v := Xor(u, Raised(rb, 1));
    AbsorbTwoEarlier(v, rc);
    var w := Xor(v, Raised(rc, 2));
    AbsorbThreeEarlier(w, rd);
    LoadRaised(l, ra, rb, rc, rd);
  }

  lemma SplitBytes(w: Word)
    ensures w == Xor(Xor(Xor(Raised(w[0..8], 0), Raised(w[8..16], 1)), Raised(w[16..24], 2)), Raised(w[24..32], 3))
  {
  }

  lemma TablesByByte(w: Word)
    ensures Table3(ByteAt(w, 0)) == Bits32(Raised(w[0..8], 0))
    ensures Table2(ByteAt(w, 1)) == Bits32(Raised(w[8..16], 1))
    ensures Table1(ByteAt(w, 2)) == Bits32(Raised(w[16..24], 2))
    ensures Table0(ByteAt(w, 3)) == Bits32(Raised(w[24..32], 3))
  {
    assert ByteAt(w, 0) == Raised(w[0..8], 0) && ByteAt(w, 1) == Raised(w[8..16], 0);
    assert ByteAt(w, 2) == Raised(w[16..24], 0) && ByteAt(w, 3) == Raised(w[24..32], 0);
    hide Bits8, Raised, ByteAt;
    LowerByte(w[8..16], 1);
    LowerByte(w[16..24], 2);
    LowerByte(w[16..24], 1);
    LowerByte(w[24..32], 3);
    LowerByte(w[24..32], 2);
    LowerByte(w[24..32], 1);
  }

  /** One four-byte step absorbs four bytes. */
  lemma Step4Absorbs(l: Word, a: Byte, b: Byte, c: Byte, d: Byte)
    ensures Step4(l, a, b, c, d) == Absorb(Absorb(Absorb(Absorb(l, a), b), c), d)
  {
    hide Bits8, Bits32, Xor, Raised, ByteAt, Load, Table0, Table1, Table2, Table3, Absorb;
    AbsorbFour(l, a, b, c, d);
    var w := Xor(l, Load(a, b, c, d));
    TablesByByte(w);
    SplitBytes(w);
    var r0, r1, r2, r3 := Raised(w[0..8], 0), Raised(w[8..16], 1), Raised(w[16..24], 2), Raised(w[24..32], 3);
    Bits32Linear(Xor(Xor(r0, r1), r2), r3);
    Bits32Linear(Xor(r0, r1), r2);
    Bits32Linear(r0, r1);
  }

  lemma {:induction false} AbsorbAllConcat(l: Word, a: Bytes, b: Bytes)
    ensures AbsorbAll(l, a + b) == AbsorbAll(AbsorbAll(l, a), b)
  {
    hide Absorb;
    if b == [] {
      assert a + b == a;
    } else {
      var n := |b| - 1;
      AbsorbAllConcat(l, a, b[..n]);
      assert (a + b)[..|a + b|-1] == a + b[..n];
    }
  }

  /** A checksum can be extended piece by piece. */
  lemma ExtendConcat(crc: Word, a: Bytes, b: Bytes)
    ensures Crc(Crc(crc, a), b) == Crc(crc, a + b)
  {
    hide Absorb, Xor;
    XorTwice(AbsorbAll(Xor(crc, AllOnes()), a), AllOnes());
    AbsorbAllConcat(Xor(crc, AllOnes()), a, b);
  }

  lemma AbsorbNext(l: Word, data: Bytes, p: nat)
    requires p < |data|
    ensures AbsorbAll(l, data[..p+1]) == Absorb(AbsorbAll(l, data[..p]), data[p])
  {
    assert data[..p+1][..p] == data[..p];
  }

  method Step4At(l: Word, data: Bytes, p: nat, ghost l0: Word) returns (l': Word)
    requires p + 4 <= |data| && l == AbsorbAll(l0, data[..p])
    ensures l' == AbsorbAll(l0, data[..p+4])
  {
    hide Absorb, Step4;
    l' := Step4(l, data[p], data[p+1], data[p+2], data[p+3]);
    Step4Absorbs(l, data[p], data[p+1], data[p+2], data[p+3]);
    AbsorbNext(l0, data, p);
    AbsorbNext(l0, data, p + 1);
    AbsorbNext(l0, data, p + 2);
    AbsorbNext(l0, data, p + 3);
  }

  method Step1At(l: Word, data: Bytes, p: nat, ghost l0: Word) returns (l': Word)
    requires p < |data| && l == AbsorbAll(l0, data[..p])
    ensures l' == AbsorbAll(l0, data[..p+1])
  {
    hide Absorb, Step1;
    l' := Step1(l, data[p]);
    Step1Absorbs(l, data[p]);
    AbsorbNext(l0, data, p);
  }

  /** The fast loop computes the definition, whatever the alignment of the buffer's address: single
      bytes up to the first aligned address, then sixteen, four and one byte at a time. */
  method Extend(crc: Word, data: Bytes, address: nat) returns (r: Word)
    ensures r == Crc(crc, data)
  {
    hide AbsorbAll, Xor;
    var l := Xor(crc, AllOnes());
    ghost var l0 := l;
    AbsorbNothing(l0, data);
    var p, e := 0, |data|;
    var x := (address + 3) / 4 * 4 - address;
    if x <= e {
      while p != x
        invariant p <= x && l == AbsorbAll(l0, data[..p])
      {
        l := Step1At(l, data, p, l0);
        p := p + 1;
      }
    }
    while e - p >= 16
      invariant p <= e && l == AbsorbAll(l0, data[..p])
    {
      l := Step4At(l, data, p, l0);
      l := Step4At(l, data, p + 4, l0);
      l := Step4At(l, data, p + 8, l0);
      l := Step4At(l, data, p + 12, l0);
      p := p + 16;
    }
    while e - p >= 4
      invariant p <= e && l == AbsorbAll(l0, data[..p])
    {
      l := Step4At(l, data, p, l0);
      p := p + 4;
    }
    while p != e
      invariant p <= e && l == AbsorbAll(l0, data[..p])
    {
      l := Step1At(l, data, p, l0);
      p := p + 1;
    }
    assert data[..|data|] == data;
    r := Xor(l, AllOnes());
  }

  lemma AbsorbNothing(l: Word, data: Bytes)
    ensures AbsorbAll(l, data[..0]) == l
  {
  }

  // Stored checksums, as numbers.

  const TWO15 := 0x8000
  const TWO17 := 0x2_0000
  const MASK_DELTA := 0xa282_ead8

  lemma {:induction false} ToIntBound(w: seq<bool>)
    ensures ToInt(w) < Power(2, |w|)
  {
    if w != [] { ToIntBound(w[1..]); }
  }

  lemma Pow2Of32()
    ensures Power(2, 32) == TWO32
  {
    assert Power(2, 8) == 256;
    assert Power(2, 16) == 65536;
    assert Power(2, 24) == 16777216;
  }

  /** The checksum of some bytes, as a number. */
  function Value(data: Bytes): Uint32 {
    var w := Crc(Zeros(32), data);
    ToIntBound(w);
    Pow2Of32();
    ToInt(w)
  }

  lemma ValueIs(data: Bytes)
    ensures ToInt(Crc(Zeros(32), data)) == Value(data)
  {
  }

  /** Rotate right by 15 bits and add a constant, in 32-bit arithmetic. */
  function Mask(crc: Uint32): Uint32 {
    (crc / TWO15 + crc % TWO15 * TWO17 + MASK_DELTA) % TWO32
  }

  function Unmask(masked: Uint32): Uint32 {
    var rot := (masked + TWO32 - MASK_DELTA) % TWO32;
    rot / TWO17 + rot % TWO17 * TWO15
  }

  /** Less the constant, a masked checksum has the bits of the checksum, rotated right by 15. */
  lemma MaskBits(crc: Uint32, i: nat)
    requires i < 32
    ensures BitSet((Mask(crc) + TWO32 - 0xa282_ead8) % TWO32, i) <==> BitSet(crc, (i + 15) % 32)
  {
    var high, low := crc / TWO15, crc % TWO15;
    PowersOfMask();
    assert (Mask(crc) + TWO32 - 0xa282_ead8) % TWO32 == low * TWO17 + high;
    hide Power, BitSet;
    JoinedBits(low, high, 17, i);
    JoinedBits(high, low, 15, (i + 15) % 32);
  }

  lemma PowersOfMask()
    ensures Power(2, 15) == TWO15 && Power(2, 17) == TWO17
  {
    assert Power(2, 8) == 256;
  }

  // Splitting and joining at a bit position.
  lemma Rotated(high: nat, low: nat, scale: nat)
    requires scale == TWO15 || scale == TWO17
    requires high < scale
    ensures (high + low * scale) / scale == low && (high + low * scale) % scale == high
  {
  }

  /** Unmask undoes Mask on every word. */
  lemma UnmaskMask(crc: Uint32)
    ensures Unmask(Mask(crc)) == crc
  {
    var high, low := crc / TWO15, crc % TWO15;
    Rotated(high, low, TWO17);
    var rot := high + low * TWO17;
    assert rot < TWO32;
    assert (Mask(crc) + TWO32 - MASK_DELTA) % TWO32 == rot;
  }

  lemma MaskUnmask(masked: Uint32)
    ensures Mask(Unmask(masked)) == masked
  {
    var rot := (masked + TWO32 - MASK_DELTA) % TWO32;
    var high, low := rot / TWO17, rot % TWO17;
    Rotated(high, low, TWO15);
    assert rot == high * TWO17 + low;
    assert Unmask(masked) == high + low * TWO15 < TWO32;
  }
}
