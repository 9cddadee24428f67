/** Particular values of the checksum, worked out by arithmetic on numbers: table entries as the source lists them, and the
    check value of CRC32C (util/crc32c.cc). */
module CrcKnownAnswers {
  import opened Keys
  import opened Coding
  import opened Crc32c
  import opened CrcPolynomial

  function XorNumber(x: nat, y: nat, count: nat): nat {
    if count == 0 then 0 else (if x % 2 != y % 2 then 1 else 0) + 2 * XorNumber(x / 2, y / 2, count - 1)
  }

  function BitNumber(n: nat): nat {
    if n % 2 == 1 then XorNumber(n / 2, 0x82f6_3b78, 32) else n / 2
  }

  function ByteNumber(n: nat): nat {
    BitNumber(BitNumber(BitNumber(BitNumber(BitNumber(BitNumber(BitNumber(BitNumber(n))))))))
  }

  lemma {:induction false} XorBits(x: nat, y: nat, count: nat)
    ensures forall i :: 0 <= i < count ==> BitsOf(XorNumber(x, y, count), count)[i] == (BitsOf(x, count)[i] != BitsOf(y, count)[i])
  {
    if count > 0 {
      var rest := XorNumber(x / 2, y / 2, count - 1);
      XorBits(x / 2, y / 2, count - 1);
      assert XorNumber(x, y, count) / 2 == rest;
    }
  }

  lemma XorIsNumber(x: nat, y: nat)
    ensures Xor(BitsOf(x, 32), BitsOf(y, 32)) == BitsOf(XorNumber(x, y, 32), 32)
  {
    hide XorNumber, BitsOf;
    XorBits(x, y, 32);
  }

  lemma {:induction false} ShiftBits(n: nat, count: nat)
    requires n < Power(2, count + 1)
    ensures BitsOf(n, count + 1) == BitsOf(n, count) + [BitSet(n, count)]
  {
    if count > 0 {
      ShiftBits(n / 2, count - 1);
    }
  }

  lemma HalfIsNumber(n: nat)
    requires n < TWO32
    ensures Half(BitsOf(n, 32)) == BitsOf(n / 2, 32)
  {
    hide BitsOf, BitSet;
    Pow2Of32();
    OneBit(n, 31);
    assert Power(2, 32) == 2 * Power(2, 31);
    hide Power;
    ShiftBits(n / 2, 31);
    NoHighBit(n / 2, 31);
  }

  lemma {:induction false} NoHighBit(n: nat, i: nat)
    requires n < Power(2, i)
    ensures !BitSet(n, i)
  {
    if i > 0 {
      NoHighBit(n / 2, i - 1);
    }
  }

  lemma BitIsNumber(n: nat)
    requires n < TWO32
    ensures Bit(BitsOf(n, 32)) == BitsOf(BitNumber(n), 32)
  {
    hide XorNumber, BitsOf, Half, Xor;
    HalfIsNumber(n);
    OneBit(n, 31);
    XorIsNumber(n / 2, 0x82f6_3b78);
  }

  lemma {:induction false} XorBelow(x: nat, y: nat, count: nat)
    ensures XorNumber(x, y, count) < Power(2, count)
  {
    if count > 0 {
      XorBelow(x / 2, y / 2, count - 1);
    }
  }

  lemma ByteIsNumber(n: nat)
    requires n < TWO32
    ensures Bits8(BitsOf(n, 32)) == BitsOf(ByteNumber(n), 32) && ByteNumber(n) < TWO32
  {
    hide XorNumber, BitsOf, Bit;
    forall m: nat | m < TWO32 ensures BitNumber(m) < TWO32 && Bit(BitsOf(m, 32)) == BitsOf(BitNumber(m), 32) {
      BitIsNumber(m);
      XorBelow(m / 2, 0x82f6_3b78, 32);
      Pow2Of32();
    }
    hide BitNumber;
    assert Bits(BitsOf(n, 32), 4) == BitsOf(BitNumber(BitNumber(BitNumber(BitNumber(n)))), 32);
    EightBits(BitsOf(n, 32));
  }

  lemma EightBits(x: Word)
    ensures Bits8(x) == Bits(Bits(x, 4), 4)
  {
    hide Bit;
  }

  lemma {:induction false} BitsBack(n: nat, count: nat)
    requires n < Power(2, count)
    ensures ToInt(BitsOf(n, count)) == n
  {
    if count > 0 {
      BitsBack(n / 2, count - 1);
      assert BitsOf(n, count)[1..] == BitsOf(n / 2, count - 1);
    }
  }

  lemma {:induction false} SmallBits(n: nat, count: nat, more: nat)
    requires n < Power(2, count)
    ensures BitsOf(n, count + more) == BitsOf(n, count) + Zeros(more)
  {
    if count > 0 {
      SmallBits(n / 2, count - 1, more);
    } else if more > 0 {
      SmallBits(0, 0, more - 1);
      assert [false] + Zeros(more - 1) == Zeros(more);
    }
  }

  // A table entry, by its number.
  lemma EntryIs(b: Byte, n: nat)
    requires ByteNumber(b) == n
    ensures ToInt(Table0(FromByte(b))) == n
  {
    hide ByteNumber, BitsOf, ToInt, Bits8;
    assert Power(2, 8) == 256;
    SmallBits(b, 8, 24);
    ByteIsNumber(b);
    Pow2Of32();
    hide Power;
    BitsBack(n, 32);
  }

  /** The table's entries for the bytes of one bit, from which all others follow by addition. */
  lemma TableEntries()
    ensures ToInt(Table0(FromByte(1))) == 0xf26b_8303 && ToInt(Table0(FromByte(2))) == 0xe13b_70f7
    ensures ToInt(Table0(FromByte(4))) == 0xc79a_971f && ToInt(Table0(FromByte(8))) == 0x8ad9_58cf
    ensures ToInt(Table0(FromByte(16))) == 0x105e_c76f && ToInt(Table0(FromByte(32))) == 0x20bd_8ede
    ensures ToInt(Table0(FromByte(64))) == 0x417b_1dbc && ToInt(Table0(FromByte(128))) == 0x82f6_3b78
  {
    hide Table0, ToInt, FromByte, XorNumber;
    OddOne();
    OddTwo();
    OddThree();
    EntryIs(1, 0xf26b_8303);
    EntryIs(2, 0xe13b_70f7);
    EntryIs(4, 0xc79a_971f);
    EntryIs(8, 0x8ad9_58cf);
    EntryIs(16, 0x105e_c76f);
    EntryIs(32, 0x20bd_8ede);
    EntryIs(64, 0x417b_1dbc);
    EntryIs(128, 0x82f6_3b78);
  }

  // The same by hexadecimal digits, for working out particular ones.

  /** Two numbers below the bound, which is a power of two, bit by bit from the highest on. */
  function XorBelow2(a: nat, b: nat): nat {
    if (a == 1) != (b == 1) then 1 else 0
  }

  function XorBelow4(a: nat, b: nat): nat {
    (if (a >= 2) != (b >= 2) then 2 else 0) + XorBelow2(if a >= 2 then a - 2 else a, if b >= 2 then b - 2 else b)
  }

  function XorBelow8(a: nat, b: nat): nat {
    (if (a >= 4) != (b >= 4) then 4 else 0) + XorBelow4(if a >= 4 then a - 4 else a, if b >= 4 then b - 4 else b)
  }

  function XorNibble(a: nat, b: nat): nat {
    (if (a >= 8) != (b >= 8) then 8 else 0) + XorBelow8(if a >= 8 then a - 8 else a, if b >= 8 then b - 8 else b)
  }

  predicate DigitXor(a: nat, b: nat, c: nat) {
    a < 16 && b < 16 && c == XorNibble(a, b)
  }

  lemma NibbleIs(x: nat, y: nat, count: nat)
    ensures XorNumber(x, y, count + 4)
         == (if x % 2 != y % 2 then 1 else 0) + (if x / 2 % 2 != y / 2 % 2 then 2 else 0) + (if x / 4 % 2 != y / 4 % 2 then 4 else 0)
            + (if x / 8 % 2 != y / 8 % 2 then 8 else 0) + 16 * XorNumber(x / 16, y / 16, count)
  {
    hide XorNumber;
    Halves(x);
    Halves(y);
    BitOut(x, y, count + 3);
    BitOut(x / 2, y / 2, count + 2);
    BitOut(x / 4, y / 4, count + 1);
    BitOut(x / 8, y / 8, count);
  }

  lemma BitOut(x: nat, y: nat, count: nat)
    ensures XorNumber(x, y, count + 1) == (if x % 2 != y % 2 then 1 else 0) + 2 * XorNumber(x / 2, y / 2, count)
  {
  }

  lemma SameNibble(x: nat, a: nat)
    requires a < 16
    ensures (16 * x + a) / 16 == x && (16 * x + a) % 2 == a % 2 && (16 * x + a) / 2 % 2 == a / 2 % 2
    ensures (16 * x + a) / 4 % 2 == a / 4 % 2 && (16 * x + a) / 8 % 2 == a / 8 % 2
  {
    EvenMore(8 * x, a);
    EvenMore(4 * x, a / 2);
    EvenMore(2 * x, a / 4);
    Halves(16 * x + a);
    Halves(a);
  }

  lemma EvenMore(n: nat, a: nat)
    ensures (2 * n + a) / 2 == n + a / 2 && (2 * n + a) % 2 == a % 2
  {
  }

  // The bits of a digit.
  lemma DigitBits(a: nat)
    requires a < 16
    ensures (a / 8 % 2 == 1 <==> a >= 8)
    ensures var a' := if a >= 8 then a - 8 else a;
            && (a / 4 % 2 == 1 <==> a' >= 4)
            && var a'' := if a' >= 4 then a' - 4 else a';
               && (a / 2 % 2 == 1 <==> a'' >= 2) && (a % 2 == 1 <==> (if a'' >= 2 then a'' - 2 else a'') == 1)
  {
  }

  lemma XorNibbleIs(a: nat, b: nat)
    requires a < 16 && b < 16
    ensures XorNibble(a, b) == (if a % 2 != b % 2 then 1 else 0) + (if a / 2 % 2 != b / 2 % 2 then 2 else 0)
                               + (if a / 4 % 2 != b / 4 % 2 then 4 else 0) + (if a / 8 % 2 != b / 8 % 2 then 8 else 0)
  {
    DigitBits(a);
    DigitBits(b);
  }

  // One more digit.
  lemma DigitMore(x: nat, y: nat, z: nat, count: nat, a: nat, b: nat, c: nat)
    requires XorNumber(x, y, count) == z && DigitXor(a, b, c)
    ensures XorNumber(16 * x + a, 16 * y + b, count + 4) == 16 * z + c
  {
    hide XorNumber, XorNibble;
    NibbleIs(16 * x + a, 16 * y + b, count);
    XorNibbleIs(a, b);
    SameNibble(x, a);
    SameNibble(y, b);
  }

  // Four digits after some others.
  function After(x: nat, a3: nat, a2: nat, a1: nat, a0: nat): nat {
    16 * (16 * (16 * (16 * x + a3) + a2) + a1) + a0
  }

  lemma FourDigits(x: nat, y: nat, z: nat, count: nat, a3: nat, a2: nat, a1: nat, a0: nat, b3: nat, b2: nat, b1: nat, b0: nat, c3: nat, c2: nat, c1: nat, c0: nat)
    requires XorNumber(x, y, count) == z && DigitXor(a3, b3, c3) && DigitXor(a2, b2, c2) && DigitXor(a1, b1, c1) && DigitXor(a0, b0, c0)
    ensures XorNumber(After(x, a3, a2, a1, a0), After(y, b3, b2, b1, b0), count + 16) == After(z, c3, c2, c1, c0)
  {
    hide XorNumber, DigitXor;
    DigitMore(x, y, z, count, a3, b3, c3);
    var x3, y3, z3 := 16 * x + a3, 16 * y + b3, 16 * z + c3;
    DigitMore(x3, y3, z3, count + 4, a2, b2, c2);
    var x2, y2, z2 := 16 * x3 + a2, 16 * y3 + b2, 16 * z3 + c2;
    DigitMore(x2, y2, z2, count + 8, a1, b1, c1);
    var x1, y1, z1 := 16 * x2 + a1, 16 * y2 + b1, 16 * z2 + c1;
    DigitMore(x1, y1, z1, count + 12, a0, b0, c0);
  }

  function Hex(d7: nat, d6: nat, d5: nat, d4: nat, d3: nat, d2: nat, d1: nat, d0: nat): nat {
    0x10000000 * d7 + 0x1000000 * d6 + 0x100000 * d5 + 0x10000 * d4 + 0x1000 * d3 + 0x100 * d2 + 0x10 * d1 + d0
  }

  lemma HexIs(d7: nat, d6: nat, d5: nat, d4: nat, d3: nat, d2: nat, d1: nat, d0: nat)
    ensures Hex(d7, d6, d5, d4, d3, d2, d1, d0) == After(After(0, d7, d6, d5, d4), d3, d2, d1, d0)
  {
  }

  lemma XorDigits(a7: nat, a6: nat, a5: nat, a4: nat, a3: nat, a2: nat, a1: nat, a0: nat,
                  b7: nat, b6: nat, b5: nat, b4: nat, b3: nat, b2: nat, b1: nat, b0: nat,
                  c7: nat, c6: nat, c5: nat, c4: nat, c3: nat, c2: nat, c1: nat, c0: nat)
    requires DigitXor(a7, b7, c7) && DigitXor(a6, b6, c6) && DigitXor(a5, b5, c5) && DigitXor(a4, b4, c4)
    requires DigitXor(a3, b3, c3) && DigitXor(a2, b2, c2) && DigitXor(a1, b1, c1) && DigitXor(a0, b0, c0)
    ensures XorNumber(Hex(a7, a6, a5, a4, a3, a2, a1, a0), Hex(b7, b6, b5, b4, b3, b2, b1, b0), 32) == Hex(c7, c6, c5, c4, c3, c2, c1, c0)
  {
    NothingLeft(0, 0);
    hide XorNumber, DigitXor, After, Hex;
    HexIs(a7, a6, a5, a4, a3, a2, a1, a0);
    HexIs(b7, b6, b5, b4, b3, b2, b1, b0);
    HexIs(c7, c6, c5, c4, c3, c2, c1, c0);
    FourDigits(0, 0, 0, 0, a7, a6, a5, a4, b7, b6, b5, b4, c7, c6, c5, c4);
    FourDigits(After(0, a7, a6, a5, a4), After(0, b7, b6, b5, b4), After(0, c7, c6, c5, c4), 16, a3, a2, a1, a0, b3, b2, b1, b0, c3, c2, c1, c0);
  }

  lemma NothingLeft(x: nat, y: nat)
    ensures XorNumber(x, y, 0) == 0
  {
  }

  lemma OddOne()
    ensures XorNumber(0, 0x82f6_3b78, 32) == 0x82f6_3b78
  {
    hide XorNumber;
    XorDigits(0, 0, 0, 0, 0, 0, 0, 0, 8, 2, 15, 6, 3, 11, 7, 8, 8, 2, 15, 6, 3, 11, 7, 8);
  }

  lemma OddTwo()
    ensures XorNumber(0x082f_63b7, 0x82f6_3b78, 32) == 0x8ad9_58cf
    ensures XorNumber(0x456c_ac67, 0x82f6_3b78, 32) == 0xc79a_971f
  {
    hide XorNumber;
    XorDigits(0, 8, 2, 15, 6, 3, 11, 7, 8, 2, 15, 6, 3, 11, 7, 8, 8, 10, 13, 9, 5, 8, 12, 15);
    XorDigits(4, 5, 6, 12, 10, 12, 6, 7, 8, 2, 15, 6, 3, 11, 7, 8, 12, 7, 9, 10, 9, 7, 1, 15);
  }

  lemma OddThree()
    ensures XorNumber(0x63cd_4b8f, 0x82f6_3b78, 32) == 0xe13b_70f7
    ensures XorNumber(0x709d_b87b, 0x82f6_3b78, 32) == 0xf26b_8303
  {
    hide XorNumber;
    XorDigits(6, 3, 12, 13, 4, 11, 8, 15, 8, 2, 15, 6, 3, 11, 7, 8, 14, 1, 3, 11, 7, 0, 15, 7);
    XorDigits(7, 0, 9, 13, 11, 8, 7, 11, 8, 2, 15, 6, 3, 11, 7, 8, 15, 2, 6, 11, 8, 3, 0, 3);
  }

  // One byte into the register.
  lemma AbsorbIs(l: Word, b: Byte, n: nat, x: nat, m: nat)
    requires l == BitsOf(n, 32) && n < TWO32 && x == XorNumber(n, b, 32) && m == ByteNumber(x)
    ensures Absorb(l, b) == BitsOf(m, 32) && m < TWO32
  {
    hide ByteNumber, BitsOf, XorNumber, Bits8, Xor;
    assert Power(2, 8) == 256;
    SmallBits(b, 8, 24);
    XorIsNumber(n, b);
    XorBelow(n, b, 32);
    Pow2Of32();
    ByteIsNumber(x);
  }

  lemma Digit1()
    ensures XorNumber(0xffff_ffff, 0x31, 32) == 0xffff_ffce && ByteNumber(0xffff_ffce) == 0x6f0a_661c
  {
    hide XorNumber;
    XorDigits(15, 15, 15, 15, 15, 15, 15, 15, 0, 0, 0, 0, 0, 0, 3, 1, 15, 15, 15, 15, 15, 15, 12, 14);
    XorDigits(3, 15, 15, 15, 15, 15, 15, 3, 8, 2, 15, 6, 3, 11, 7, 8, 11, 13, 0, 9, 12, 4, 8, 11);
    XorDigits(5, 14, 8, 4, 14, 2, 4, 5, 8, 2, 15, 6, 3, 11, 7, 8, 13, 12, 7, 2, 13, 9, 3, 13);
    XorDigits(6, 14, 3, 9, 6, 12, 9, 14, 8, 2, 15, 6, 3, 11, 7, 8, 14, 12, 12, 15, 5, 7, 14, 6);
    XorDigits(3, 11, 3, 3, 13, 5, 15, 9, 8, 2, 15, 6, 3, 11, 7, 8, 11, 9, 12, 5, 14, 14, 8, 1);
    XorDigits(5, 12, 14, 2, 15, 7, 4, 0, 8, 2, 15, 6, 3, 11, 7, 8, 13, 14, 1, 4, 12, 12, 3, 8);
  }

  lemma Digit2()
    ensures XorNumber(0x6f0a_661c, 0x32, 32) == 0x6f0a_662e && ByteNumber(0x6f0a_662e) == 0x8caa_3b9f
  {
    hide XorNumber;
    XorDigits(6, 15, 0, 10, 6, 6, 1, 12, 0, 0, 0, 0, 0, 0, 3, 2, 6, 15, 0, 10, 6, 6, 2, 14);
    XorDigits(1, 11, 12, 2, 9, 9, 8, 11, 8, 2, 15, 6, 3, 11, 7, 8, 9, 9, 3, 4, 10, 2, 15, 3);
    XorDigits(4, 12, 9, 10, 5, 1, 7, 9, 8, 2, 15, 6, 3, 11, 7, 8, 12, 14, 6, 12, 6, 10, 0, 1);
    XorDigits(6, 7, 3, 6, 3, 5, 0, 0, 8, 2, 15, 6, 3, 11, 7, 8, 14, 5, 12, 0, 0, 14, 7, 8);
    XorDigits(0, 14, 5, 12, 0, 0, 14, 7, 8, 2, 15, 6, 3, 11, 7, 8, 8, 12, 10, 10, 3, 11, 9, 15);
  }

  lemma Digit3()
    ensures XorNumber(0x8caa_3b9f, 0x33, 32) == 0x8caa_3bac && ByteNumber(0x8caa_3bac) == 0xef84_d04d
  {
    hide XorNumber;
    XorDigits(8, 12, 10, 10, 3, 11, 9, 15, 0, 0, 0, 0, 0, 0, 3, 3, 8, 12, 10, 10, 3, 11, 10, 12);
    XorDigits(1, 1, 9, 5, 4, 7, 7, 5, 8, 2, 15, 6, 3, 11, 7, 8, 9, 3, 6, 3, 7, 12, 0, 13);
    XorDigits(4, 9, 11, 1, 11, 14, 0, 6, 8, 2, 15, 6, 3, 11, 7, 8, 12, 11, 4, 7, 8, 5, 7, 14);
    XorDigits(3, 2, 13, 1, 14, 1, 5, 15, 8, 2, 15, 6, 3, 11, 7, 8, 11, 0, 2, 7, 13, 10, 2, 7);
    XorDigits(5, 8, 1, 3, 14, 13, 1, 3, 8, 2, 15, 6, 3, 11, 7, 8, 13, 10, 14, 5, 13, 6, 6, 11);
    XorDigits(6, 13, 7, 2, 14, 11, 3, 5, 8, 2, 15, 6, 3, 11, 7, 8, 14, 15, 8, 4, 13, 0, 4, 13);
  }

  lemma Digit4()
    ensures XorNumber(0xef84_d04d, 0x34, 32) == 0xef84_d079 && ByteNumber(0xef84_d079) == 0x09c5_0b11
  {
    hide XorNumber;
    XorDigits(14, 15, 8, 4, 13, 0, 4, 13, 0, 0, 0, 0, 0, 0, 3, 4, 14, 15, 8, 4, 13, 0, 7, 9);
    XorDigits(7, 7, 12, 2, 6, 8, 3, 12, 8, 2, 15, 6, 3, 11, 7, 8, 15, 5, 3, 4, 5, 3, 4, 4);
    XorDigits(1, 14, 10, 6, 8, 10, 6, 8, 8, 2, 15, 6, 3, 11, 7, 8, 9, 12, 5, 0, 11, 1, 1, 0);
  }

  lemma Digit5()
    ensures XorNumber(0x09c5_0b11, 0x35, 32) == 0x09c5_0b24 && ByteNumber(0x09c5_0b24) == 0xe72e_dcca
  {
    hide XorNumber;
    XorDigits(0, 9, 12, 5, 0, 11, 1, 1, 0, 0, 0, 0, 0, 0, 3, 5, 0, 9, 12, 5, 0, 11, 2, 4);
    XorDigits(0, 1, 3, 8, 10, 1, 6, 4, 8, 2, 15, 6, 3, 11, 7, 8, 8, 3, 12, 14, 9, 10, 1, 12);
    XorDigits(1, 0, 7, 9, 13, 3, 4, 3, 8, 2, 15, 6, 3, 11, 7, 8, 9, 2, 8, 15, 14, 8, 3, 11);
    XorDigits(4, 9, 4, 7, 15, 4, 1, 13, 8, 2, 15, 6, 3, 11, 7, 8, 12, 11, 11, 1, 12, 15, 6, 5);
    XorDigits(6, 5, 13, 8, 14, 7, 11, 2, 8, 2, 15, 6, 3, 11, 7, 8, 14, 7, 2, 14, 13, 12, 12, 10);
  }

  lemma Digit6()
    ensures XorNumber(0xe72e_dcca, 0x36, 32) == 0xe72e_dcfc && ByteNumber(0xe72e_dcfc) == 0xbeca_8e79
  {
    hide XorNumber;
    XorDigits(14, 7, 2, 14, 13, 12, 12, 10, 0, 0, 0, 0, 0, 0, 3, 6, 14, 7, 2, 14, 13, 12, 15, 12);
    XorDigits(1, 12, 14, 5, 13, 11, 9, 15, 8, 2, 15, 6, 3, 11, 7, 8, 9, 14, 1, 3, 14, 0, 14, 7);
    XorDigits(4, 15, 0, 9, 15, 0, 7, 3, 8, 2, 15, 6, 3, 11, 7, 8, 12, 13, 15, 15, 12, 11, 0, 11);
    XorDigits(6, 6, 15, 15, 14, 5, 8, 5, 8, 2, 15, 6, 3, 11, 7, 8, 14, 4, 0, 9, 13, 14, 15, 13);
    XorDigits(7, 2, 0, 4, 14, 15, 7, 14, 8, 2, 15, 6, 3, 11, 7, 8, 15, 0, 15, 2, 13, 4, 0, 6);
    XorDigits(3, 12, 3, 12, 11, 5, 0, 1, 8, 2, 15, 6, 3, 11, 7, 8, 11, 14, 12, 10, 8, 14, 7, 9);
  }

  lemma Digit7()
    ensures XorNumber(0xbeca_8e79, 0x37, 32) == 0xbeca_8e4e && ByteNumber(0xbeca_8e4e) == 0xedbd_6815
  {
    hide XorNumber;
    XorDigits(11, 14, 12, 10, 8, 14, 7, 9, 0, 0, 0, 0, 0, 0, 3, 7, 11, 14, 12, 10, 8, 14, 4, 14);
    XorDigits(2, 15, 11, 2, 10, 3, 9, 3, 8, 2, 15, 6, 3, 11, 7, 8, 10, 13, 4, 4, 9, 8, 14, 11);
    XorDigits(5, 6, 10, 2, 4, 12, 7, 5, 8, 2, 15, 6, 3, 11, 7, 8, 13, 4, 5, 4, 7, 7, 0, 13);
    XorDigits(6, 10, 2, 10, 3, 11, 8, 6, 8, 2, 15, 6, 3, 11, 7, 8, 14, 8, 13, 12, 0, 0, 15, 14);
    XorDigits(3, 10, 3, 7, 0, 0, 3, 15, 8, 2, 15, 6, 3, 11, 7, 8, 11, 8, 12, 1, 3, 11, 4, 7);
    XorDigits(5, 12, 6, 0, 9, 13, 10, 3, 8, 2, 15, 6, 3, 11, 7, 8, 13, 14, 9, 6, 10, 6, 13, 11);
    XorDigits(6, 15, 4, 11, 5, 3, 6, 13, 8, 2, 15, 6, 3, 11, 7, 8, 14, 13, 11, 13, 6, 8, 1, 5);
  }

  lemma Digit8()
    ensures XorNumber(0xedbd_6815, 0x38, 32) == 0xedbd_682d && ByteNumber(0xedbd_682d) == 0x9f78_7f65
  {
    hide XorNumber;
    XorDigits(14, 13, 11, 13, 6, 8, 1, 5, 0, 0, 0, 0, 0, 0, 3, 8, 14, 13, 11, 13, 6, 8, 2, 13);
    XorDigits(7, 6, 13, 14, 11, 4, 1, 6, 8, 2, 15, 6, 3, 11, 7, 8, 15, 4, 2, 8, 8, 15, 6, 14);
    XorDigits(3, 13, 0, 10, 2, 3, 13, 11, 8, 2, 15, 6, 3, 11, 7, 8, 11, 15, 15, 12, 1, 8, 10, 3);
    XorDigits(5, 15, 15, 14, 0, 12, 5, 1, 8, 2, 15, 6, 3, 11, 7, 8, 13, 13, 0, 8, 3, 7, 2, 9);
    XorDigits(6, 14, 8, 4, 1, 11, 9, 4, 8, 2, 15, 6, 3, 11, 7, 8, 14, 12, 7, 2, 2, 0, 14, 12);
    XorDigits(1, 13, 8, 14, 4, 4, 1, 13, 8, 2, 15, 6, 3, 11, 7, 8, 9, 15, 7, 8, 7, 15, 6, 5);
  }

  lemma Digit9()
    ensures XorNumber(0x9f78_7f65, 0x39, 32) == 0x9f78_7f5c && ByteNumber(0x9f78_7f5c) == 0x1cf9_6d7c
  {
    hide XorNumber;
    XorDigits(9, 15, 7, 8, 7, 15, 6, 5, 0, 0, 0, 0, 0, 0, 3, 9, 9, 15, 7, 8, 7, 15, 5, 12);
    XorDigits(1, 3, 14, 15, 0, 15, 14, 11, 8, 2, 15, 6, 3, 11, 7, 8, 9, 1, 1, 9, 3, 4, 9, 3);
    XorDigits(4, 8, 8, 12, 9, 10, 4, 9, 8, 2, 15, 6, 3, 11, 7, 8, 12, 10, 7, 10, 10, 1, 3, 1);
    XorDigits(6, 5, 3, 13, 5, 0, 9, 8, 8, 2, 15, 6, 3, 11, 7, 8, 14, 7, 12, 11, 6, 11, 14, 0);
  }

  lemma {:induction false} OnesBits(n: nat)
    ensures Power(2, n) > 0 && BitsOf(Power(2, n) - 1, n) == seq(n, _ => true)
  {
    if n > 0 {
      OnesBits(n - 1);
      assert (Power(2, n) - 1) / 2 == Power(2, n - 1) - 1;
      assert [true] + seq(n - 1, _ => true) == seq(n, _ => true);
    }
  }

  lemma InitialWord()
    ensures AllOnes() == Xor(Zeros(32), AllOnes()) == BitsOf(0xffff_ffff, 32)
  {
    Pow2Of32();
    OnesBits(32);
  }

  const DIGITS: Bytes := [0x31, 0x32, 0x33, 0x34, 0x35, 0x36, 0x37, 0x38, 0x39]

  lemma RegisterIs()
    ensures AbsorbAll(AllOnes(), DIGITS) == BitsOf(0x1cf9_6d7c, 32)
  {
    hide Absorb, BitsOf, ByteNumber, XorNumber, AbsorbAll;
    var l, data := AllOnes(), DIGITS;
    InitialWord();
    AbsorbNothing(l, data);
    Digit1();
    AbsorbIs(AbsorbAll(l, data[..0]), 0x31, 0xffff_ffff, 0xffff_ffce, 0x6f0a_661c);
    AbsorbNext(l, data, 0);
    Digit2();
    AbsorbIs(AbsorbAll(l, data[..1]), 0x32, 0x6f0a_661c, 0x6f0a_662e, 0x8caa_3b9f);
    AbsorbNext(l, data, 1);
    Digit3();
    AbsorbIs(AbsorbAll(l, data[..2]), 0x33, 0x8caa_3b9f, 0x8caa_3bac, 0xef84_d04d);
    AbsorbNext(l, data, 2);
    Digit4();
    AbsorbIs(AbsorbAll(l, data[..3]), 0x34, 0xef84_d04d, 0xef84_d079, 0x09c5_0b11);
    AbsorbNext(l, data, 3);
    Digit5();
    AbsorbIs(AbsorbAll(l, data[..4]), 0x35, 0x09c5_0b11, 0x09c5_0b24, 0xe72e_dcca);
    AbsorbNext(l, data, 4);
    Digit6();
    AbsorbIs(AbsorbAll(l, data[..5]), 0x36, 0xe72e_dcca, 0xe72e_dcfc, 0xbeca_8e79);
    AbsorbNext(l, data, 5);
    Digit7();
    AbsorbIs(AbsorbAll(l, data[..6]), 0x37, 0xbeca_8e79, 0xbeca_8e4e, 0xedbd_6815);
    AbsorbNext(l, data, 6);
    Digit8();
    AbsorbIs(AbsorbAll(l, data[..7]), 0x38, 0xedbd_6815, 0xedbd_682d, 0x9f78_7f65);
    AbsorbNext(l, data, 7);
    Digit9();
    AbsorbIs(AbsorbAll(l, data[..8]), 0x39, 0x9f78_7f65, 0x9f78_7f5c, 0x1cf9_6d7c);
    AbsorbNext(l, data, 8);
    assert data[..9] == data;
  }

  /** The checksum of the nine digits "123456789", which is published as the check value of CRC32C. */
  lemma CheckValue()
    ensures Crc32c.Value(DIGITS) == 0xe306_9283
  {
    hide AbsorbAll, BitsOf, XorNumber, ToInt, Xor, Power;
    InitialWord();
    RegisterIs();
    XorIsNumber(0x1cf9_6d7c, 0xffff_ffff);
    LastXor();
    ValueIs(DIGITS);
    Pow2Of32();
    BitsBack(0xe306_9283, 32);
  }

  lemma LastXor()
    ensures XorNumber(0x1cf9_6d7c, 0xffff_ffff, 32) == 0xe306_9283
  {
    hide XorNumber;
    XorDigits(1, 12, 15, 9, 6, 13, 7, 12, 15, 15, 15, 15, 15, 15, 15, 15, 14, 3, 0, 6, 9, 2, 8, 3);
  }
}
