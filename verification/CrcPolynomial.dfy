/** What the checksum is: the remainder of the message, as a polynomial over two elements, on division by the polynomial of
    Castagnoli, et al. (util/crc32c.cc; section 12.1 of RFC 3720). A polynomial is the set of its exponents. */
module CrcPolynomial {
  import opened Keys
  import opened Coding
  import opened Crc32c

  type Poly = set<nat>

  /** x^32 + x^28 + x^27 + x^26 + x^25 + x^23 + x^22 + x^20 + x^19 + x^18 + x^14 + x^13 + x^11 + x^10 + x^9 + x^8 + x^6 + 1 */
  const CASTAGNOLI: Poly := {32, 28, 27, 26, 25, 23, 22, 20, 19, 18, 14, 13, 11, 10, 9, 8, 6, 0}

  function Plus(a: Poly, b: Poly): Poly {
    (a - b) + (b - a)
  }

  // Times x^n.
  function Shifted(a: Poly, n: nat): Poly {
    set e | e in a :: e + n
  }

  /** The product with the sum of some powers of x. */
  function Multiple(a: Poly, ks: seq<nat>): Poly {
    if ks == [] then {} else Plus(Multiple(a, ks[..|ks| - 1]), Shifted(a, ks[|ks| - 1]))
  }

  ghost predicate Congruent(a: Poly, b: Poly) {
    exists ks :: a == Plus(b, Multiple(CASTAGNOLI, ks))
  }

  ghost predicate Below(a: Poly, n: nat) {
    forall e :: e in a ==> e < n
  }

  // Arithmetic.

  lemma PlusAssociates(a: Poly, b: Poly, c: Poly)
    ensures Plus(Plus(a, b), c) == Plus(a, Plus(b, c))
  {
  }

  lemma ShiftedPlus(a: Poly, b: Poly, n: nat)
    ensures Shifted(Plus(a, b), n) == Plus(Shifted(a, n), Shifted(b, n))
  {
    forall e | e in Plus(Shifted(a, n), Shifted(b, n)) ensures e in Shifted(Plus(a, b), n) {
      assert e - n in Plus(a, b);
    }
  }

  lemma ShiftedTwice(a: Poly, m: nat, n: nat)
    ensures Shifted(Shifted(a, m), n) == Shifted(a, m + n) && Shifted(a, 0) == a
  {
    forall e | e in Shifted(a, m + n) ensures e in Shifted(Shifted(a, m), n) {
      assert e - n in Shifted(a, m);
    }
    assert forall e :: e in a ==> e + 0 in Shifted(a, 0);
  }

  lemma {:induction false} MultipleConcat(a: Poly, ks: seq<nat>, ms: seq<nat>)
    ensures Multiple(a, ks + ms) == Plus(Multiple(a, ks), Multiple(a, ms))
  {
    hide Shifted;
    if ms == [] {
      assert ks + ms == ks;
    } else {
      var n := |ms| - 1;
      MultipleConcat(a, ks, ms[..n]);
      assert (ks + ms)[..|ks + ms| - 1] == ks + ms[..n];
      hide Plus;
      PlusAssociates(Multiple(a, ks), Multiple(a, ms[..n]), Shifted(a, ms[n]));
    }
  }

  function AllPlus(ks: seq<nat>, n: nat): seq<nat> {
    seq(|ks|, i requires 0 <= i < |ks| => ks[i] + n)
  }

  lemma {:induction false} MultipleShifted(a: Poly, ks: seq<nat>, n: nat)
    ensures Shifted(Multiple(a, ks), n) == Multiple(a, AllPlus(ks, n))
  {
    hide Shifted, Plus;
    if ks == [] {
      NothingShifted(n);
    } else {
      var m := |ks| - 1;
      MultipleShifted(a, ks[..m], n);
      ShiftedPlus(Multiple(a, ks[..m]), Shifted(a, ks[m]), n);
      ShiftedTwice(a, ks[m], n);
      assert AllPlus(ks, n)[..m] == AllPlus(ks[..m], n);
    }
  }

  lemma NothingShifted(n: nat)
    ensures Shifted({}, n) == {}
  {
  }

  lemma CongruentSelf(a: Poly)
    ensures Congruent(a, a)
  {
    assert a == Plus(a, Multiple(CASTAGNOLI, []));
  }

  lemma CongruentTrans(a: Poly, b: Poly, c: Poly)
    requires Congruent(a, b) && Congruent(b, c)
    ensures Congruent(a, c)
  {
    hide Multiple, Plus;
    var ks :| a == Plus(b, Multiple(CASTAGNOLI, ks));
    var ms :| b == Plus(c, Multiple(CASTAGNOLI, ms));
    MultipleConcat(CASTAGNOLI, ms, ks);
    PlusAssociates(c, Multiple(CASTAGNOLI, ms), Multiple(CASTAGNOLI, ks));
  }

  lemma CongruentShifted(a: Poly, b: Poly, n: nat)
    requires Congruent(a, b)
    ensures Congruent(Shifted(a, n), Shifted(b, n))
  {
    hide Multiple, Plus, Shifted;
    var ks :| a == Plus(b, Multiple(CASTAGNOLI, ks));
    ShiftedPlus(b, Multiple(CASTAGNOLI, ks), n);
    MultipleShifted(CASTAGNOLI, ks, n);
  }

  lemma PlusCommutes(a: Poly, b: Poly)
    ensures Plus(a, b) == Plus(b, a)
  {
  }

  lemma CongruentPlus(a: Poly, b: Poly, c: Poly)
    requires Congruent(a, b)
    ensures Congruent(Plus(a, c), Plus(b, c))
  {
    hide Multiple, Plus;
    var ks :| a == Plus(b, Multiple(CASTAGNOLI, ks));
    var m := Multiple(CASTAGNOLI, ks);
    PlusAssociates(b, m, c);
    PlusCommutes(m, c);
    PlusAssociates(b, c, m);
  }

  // Remainders are unique.

  function Without(ks: seq<nat>, k: nat): seq<nat> {
    if ks == [] then [] else Without(ks[..|ks| - 1], k) + if ks[|ks| - 1] == k then [] else [ks[|ks| - 1]]
  }

  function OddlyIn(ks: seq<nat>, k: nat): bool {
    if ks == [] then false else OddlyIn(ks[..|ks| - 1], k) != (ks[|ks| - 1] == k)
  }

  lemma {:induction false} TakenOut(a: Poly, ks: seq<nat>, k: nat)
    ensures Multiple(a, ks) == Plus(Multiple(a, Without(ks, k)), if OddlyIn(ks, k) then Shifted(a, k) else {})
  {
    hide Shifted, Plus;
    if ks == [] {
      PlusNothing({});
    } else {
      var n := |ks| - 1;
      var rest, m := Without(ks[..n], k), Multiple(a, Without(ks[..n], k));
      TakenOut(a, ks[..n], k);
      PlusNothing(m);
      PlusTwice(m, Shifted(a, k));
      if ks[n] == k {
        assert rest + [] == rest;
      } else {
        assert (rest + [ks[n]])[..|rest|] == rest;
        PlusNothing(Plus(m, Shifted(a, ks[n])));
        PlusSwaps(m, Shifted(a, k), Shifted(a, ks[n]));
      }
    }
  }

  lemma PlusNothing(a: Poly)
    ensures Plus(a, {}) == a
  {
  }

  lemma PlusTwice(a: Poly, b: Poly)
    ensures Plus(Plus(a, b), b) == a
  {
  }

  lemma PlusSwaps(a: Poly, b: Poly, c: Poly)
    ensures Plus(Plus(a, b), c) == Plus(Plus(a, c), b)
  {
  }

  lemma {:induction false} WithoutBelow(ks: seq<nat>, k: nat)
    requires forall i :: 0 <= i < |ks| ==> ks[i] <= k
    ensures forall i :: 0 <= i < |Without(ks, k)| ==> Without(ks, k)[i] < k
  {
    if ks != [] {
      WithoutBelow(ks[..|ks| - 1], k);
    }
  }

  lemma {:induction false} MultipleBelow(ks: seq<nat>, k: nat)
    requires forall i :: 0 <= i < |ks| ==> ks[i] < k
    ensures Below(Multiple(CASTAGNOLI, ks), 32 + k)
  {
    if ks != [] {
      MultipleBelow(ks[..|ks| - 1], k);
    }
  }

  // A multiple of degree below 32 is zero.
  lemma {:induction false} SmallMultiple(ks: seq<nat>, k: nat)
    requires (forall i :: 0 <= i < |ks| ==> ks[i] < k) && Below(Multiple(CASTAGNOLI, ks), 32)
    ensures Multiple(CASTAGNOLI, ks) == {}
    decreases k
  {
    if k > 0 {
      var rest := Without(ks, k - 1);
      TakenOut(CASTAGNOLI, ks, k - 1);
      WithoutBelow(ks, k - 1);
      MultipleBelow(rest, k - 1);
      assert 32 in CASTAGNOLI && 32 + (k - 1) in Shifted(CASTAGNOLI, k - 1);
      assert 32 + (k - 1) !in Multiple(CASTAGNOLI, rest);
      SmallMultiple(rest, k - 1);
    } else {
      assert ks == [];
    }
  }

  lemma {:induction false} UpperBound(ks: seq<nat>) returns (k: nat)
    ensures forall i :: 0 <= i < |ks| ==> ks[i] < k
  {
    k := 0;
    if ks != [] {
      var m := UpperBound(ks[..|ks| - 1]);
      k := if m > ks[|ks| - 1] then m else ks[|ks| - 1] + 1;
    }
  }

  /** Two polynomials of degree below 32 that are congruent are the same: there is one remainder. */
  lemma OneRemainder(a: Poly, b: Poly)
    requires Congruent(a, b) && Below(a, 32) && Below(b, 32)
    ensures a == b
  {
    var ks :| a == Plus(b, Multiple(CASTAGNOLI, ks));
    var k := UpperBound(ks);
    SmallMultiple(ks, k);
  }

  // Words as polynomials: the first bit is the coefficient of x^31.

  function PolyOf(w: Word): Poly {
    set i | 0 <= i < 32 && w[i] :: 31 - i
  }

  lemma PolyAt(w: Word, e: nat)
    ensures e in PolyOf(w) <==> e < 32 && w[31 - e]
  {
    if e < 32 && w[31 - e] {
      assert 31 - (31 - e) == e;
    }
  }

  lemma PolyXor(x: Word, y: Word)
    ensures PolyOf(Xor(x, y)) == Plus(PolyOf(x), PolyOf(y))
  {
    hide PolyOf;
    forall e: nat ensures e in PolyOf(Xor(x, y)) <==> e in Plus(PolyOf(x), PolyOf(y)) {
      PolyAt(x, e);
      PolyAt(y, e);
      PolyAt(Xor(x, y), e);
    }
  }

  lemma Nibble(n: nat, count: nat)
    ensures BitsOf(n, count + 4) == [n % 2 == 1, n / 2 % 2 == 1, n / 4 % 2 == 1, n / 8 % 2 == 1] + BitsOf(n / 16, count)
  {
    hide BitsOf;
    Halves(n);
    OneBit(n, count + 3);
    OneBit(n / 2, count + 2);
    OneBit(n / 4, count + 1);
    OneBit(n / 8, count);
    FourBits(n % 2 == 1, n / 2 % 2 == 1, n / 4 % 2 == 1, n / 8 % 2 == 1, BitsOf(n / 16, count));
  }

  lemma Halves(n: nat)
    ensures n / 2 / 2 == n / 4 && n / 4 / 2 == n / 8 && n / 8 / 2 == n / 16
  {
  }

  lemma FourBits(a: bool, b: bool, c: bool, d: bool, rest: seq<bool>)
    ensures [a] + ([b] + ([c] + ([d] + rest))) == [a, b, c, d] + rest
  {
  }

  lemma OneBit(n: nat, count: nat)
    ensures BitsOf(n, count + 1) == [n % 2 == 1] + BitsOf(n / 2, count)
  {
  }

  lemma LowHalf()
    ensures BitsOf(0x82f6_3b78, 32)
         == [false, false, false, true, true, true, true, false] + [true, true, false, true, true, true, false, false] + BitsOf(0x82f6, 16)
  {
    hide BitsOf;
    Nibble(0x82f6_3b78, 28);
    Nibble(0x82f_63b7, 24);
    Nibble(0x82_f63b, 20);
    Nibble(0x8_2f63, 16);
  }

  lemma HighHalf()
    ensures BitsOf(0x82f6, 16) == [false, true, true, false, true, true, true, true] + [false, true, false, false, false, false, false, true]
  {
    hide BitsOf;
    Nibble(0x82f6, 12);
    Nibble(0x82f, 8);
    Nibble(0x82, 4);
    Nibble(0x8, 0);
    NoBits();
  }

  lemma NoBits()
    ensures BitsOf(0, 0) == []
  {
  }

  lemma PolynomialBits()
    ensures Polynomial() == [false, false, false, true, true, true, true, false] + [true, true, false, true, true, true, false, false]
                          + [false, true, true, false, true, true, true, true] + [false, true, false, false, false, false, false, true]
  {
    hide BitsOf;
    LowHalf();
    HighHalf();
  }

  lemma PolynomialIs()
    ensures Plus(PolyOf(Polynomial()), {32}) == CASTAGNOLI
  {
    PolynomialBits();
    hide PolyOf, Polynomial;
    forall e: nat ensures e in Plus(PolyOf(Polynomial()), {32}) <==> e in CASTAGNOLI {
      PolyAt(Polynomial(), e);
    }
  }

  /** One bit of division: times x, less the divisor if x^32 comes in. */
  lemma BitIsTimesX(x: Word)
    ensures PolyOf(Bit(x)) == Plus(Shifted(PolyOf(x), 1), if x[0] then CASTAGNOLI else {})
  {
    HalfIsTimesX(x);
    PolynomialIs();
    hide PolyOf, Polynomial, Shifted, Half;
    if x[0] {
      PolyXor(Half(x), Polynomial());
      PlusCancels(Shifted(PolyOf(x), 1), PolyOf(Polynomial()));
    } else {
      PlusNothing(Shifted(PolyOf(x), 1));
    }
  }

  lemma PlusCancels(a: Poly, p: Poly)
    requires 32 in a && 32 !in p
    ensures Plus(a - {32}, p) == Plus(a, Plus(p, {32}))
  {
  }

  lemma HalfIsTimesX(x: Word)
    ensures PolyOf(Half(x)) == Shifted(PolyOf(x), 1) - {32} && (32 in Shifted(PolyOf(x), 1) <==> x[0]) && 32 !in PolyOf(Polynomial())
  {
    hide PolyOf, Polynomial;
    forall e: nat ensures e in PolyOf(Half(x)) <==> e in Shifted(PolyOf(x), 1) && e != 32 {
      PolyAt(Half(x), e);
      if e > 0 {
        PolyAt(x, e - 1);
        assert e in Shifted(PolyOf(x), 1) <==> e - 1 in PolyOf(x);
      }
    }
    PolyAt(x, 31);
    PolyAt(Polynomial(), 32);
  }

  lemma BitCongruent(x: Word)
    ensures Congruent(PolyOf(Bit(x)), Shifted(PolyOf(x), 1))
  {
    BitIsTimesX(x);
    hide PolyOf, Shifted, Bit;
    if x[0] {
      ShiftedTwice(CASTAGNOLI, 0, 0);
      assert Multiple(CASTAGNOLI, [0]) == Plus(Multiple(CASTAGNOLI, []), Shifted(CASTAGNOLI, 0)) by {
        assert [0][..0] == [];
      }
      assert PolyOf(Bit(x)) == Plus(Shifted(PolyOf(x), 1), Multiple(CASTAGNOLI, [0]));
    } else {
      assert PolyOf(Bit(x)) == Plus(Shifted(PolyOf(x), 1), Multiple(CASTAGNOLI, []));
    }
  }

  lemma {:induction false} BitsCongruent(x: Word, n: nat)
    ensures Congruent(PolyOf(Bits(x, n)), Shifted(PolyOf(x), n))
    decreases n
  {
    hide PolyOf, Shifted, Bit, Congruent;
    if n == 0 {
      ShiftedTwice(PolyOf(x), 0, 0);
      CongruentSelf(PolyOf(x));
    } else {
      BitsCongruent(Bit(x), n - 1);
      BitCongruent(x);
      CongruentShifted(PolyOf(Bit(x)), Shifted(PolyOf(x), 1), n - 1);
      ShiftedTwice(PolyOf(x), 1, n - 1);
      CongruentTrans(PolyOf(Bits(x, n)), Shifted(PolyOf(Bit(x)), n - 1), Shifted(PolyOf(x), n));
    }
  }

  // Messages as polynomials: the first bit of the first byte, least significant first, has the highest exponent.

  function Message(data: Bytes): Poly {
    set j, i | 0 <= j < |data| && 0 <= i < 8 && BitSet(data[j], i) :: 8 * (|data| - 1 - j) + (7 - i)
  }

  function BytePoly(b: Byte): Poly {
    set i | 0 <= i < 8 && BitSet(b, i) :: 7 - i
  }

  lemma BytePolyAt(b: Byte, e: nat)
    ensures e in BytePoly(b) <==> e < 8 && BitSet(b, 7 - e)
  {
    if e < 8 && BitSet(b, 7 - e) {
      assert 7 - (7 - e) == e;
    }
  }

  lemma MessageAt(data: Bytes, e: nat)
    ensures e in Message(data) <==> e / 8 < |data| && BitSet(data[|data| - 1 - e / 8], 7 - e % 8)
  {
    if e / 8 < |data| && BitSet(data[|data| - 1 - e / 8], 7 - e % 8) {
      var j, i := |data| - 1 - e / 8, 7 - e % 8;
      assert 8 * (|data| - 1 - j) + (7 - i) == e;
    }
    if e in Message(data) {
      var j, i :| 0 <= j < |data| && 0 <= i < 8 && BitSet(data[j], i) && 8 * (|data| - 1 - j) + (7 - i) == e;
      assert e / 8 == |data| - 1 - j && e % 8 == 7 - i;
    }
  }

  lemma MessageNext(data: Bytes, b: Byte)
    ensures Message(data + [b]) == Plus(Shifted(Message(data), 8), BytePoly(b))
  {
    hide BitSet, Message, BytePoly;
    forall e: nat ensures e in Message(data + [b]) <==> e in Plus(Shifted(Message(data), 8), BytePoly(b)) {
      MessageAt(data + [b], e);
      BytePolyAt(b, e);
      if e >= 8 {
        MessageAt(data, e - 8);
        assert e in Shifted(Message(data), 8) <==> e - 8 in Message(data);
        assert e / 8 <= |data| ==> (data + [b])[|data| - e / 8] == data[|data| - 1 - (e - 8) / 8];
      }
    }
  }

  lemma {:induction false} BitsOfAt(n: nat, count: nat, i: nat)
    requires i < count
    ensures BitsOf(n, count)[i] <==> BitSet(n, i)
  {
    if i > 0 {
      BitsOfAt(n / 2, count - 1, i - 1);
    }
  }

  lemma FromByteIs(b: Byte)
    ensures PolyOf(FromByte(b)) == Shifted(BytePoly(b), 24)
  {
    hide BitSet, PolyOf, BytePoly, BitsOf;
    forall e: nat ensures e in PolyOf(FromByte(b)) <==> e in Shifted(BytePoly(b), 24) {
      PolyAt(FromByte(b), e);
      if e >= 24 {
        BytePolyAt(b, e - 24);
        assert e in Shifted(BytePoly(b), 24) <==> e - 24 in BytePoly(b);
        if e < 32 {
          BitsOfAt(b, 8, 31 - e);
        }
      }
    }
  }

  lemma AbsorbCongruent(l: Word, b: Byte)
    ensures Congruent(PolyOf(Absorb(l, b)), Plus(Shifted(PolyOf(l), 8), Shifted(BytePoly(b), 32)))
  {
    hide PolyOf, Shifted, Congruent, Bits, Plus, BytePoly, Xor, FromByte;
    BitsCongruent(Xor(l, FromByte(b)), 8);
    PolyXor(l, FromByte(b));
    FromByteIs(b);
    ShiftedPlus(PolyOf(l), PolyOf(FromByte(b)), 8);
    ShiftedTwice(BytePoly(b), 24, 8);
  }

  /** What the register holds after some bytes, before it is inverted: what it held, moved up by all of their bits, and the
      message moved up by 32, up to multiples of the divisor. */
  lemma {:induction false} RegisterCongruent(l: Word, data: Bytes)
    ensures Congruent(PolyOf(AbsorbAll(l, data)), Plus(Shifted(PolyOf(l), 8 * |data|), Shifted(Message(data), 32)))
  {
    hide PolyOf, Shifted, Congruent, Plus, BytePoly, Message, Absorb;
    if data == [] {
      ShiftedTwice(PolyOf(l), 0, 0);
      NoMessage();
      PlusNothing(PolyOf(l));
      CongruentSelf(PolyOf(l));
    } else {
      var n := |data| - 1;
      var r, b := AbsorbAll(l, data[..n]), data[n];
      var before, message := Shifted(PolyOf(l), 8 * n), Shifted(Message(data[..n]), 32);
      RegisterCongruent(l, data[..n]);
      AbsorbCongruent(r, b);
      CongruentShifted(PolyOf(r), Plus(before, message), 8);
      CongruentPlus(Shifted(PolyOf(r), 8), Shifted(Plus(before, message), 8), Shifted(BytePoly(b), 32));
      CongruentTrans(PolyOf(AbsorbAll(l, data)), Plus(Shifted(PolyOf(r), 8), Shifted(BytePoly(b), 32)),
                     Plus(Shifted(Plus(before, message), 8), Shifted(BytePoly(b), 32)));
      ShiftedPlus(before, message, 8);
      ShiftedTwice(PolyOf(l), 8 * n, 8);
      assert data[..n] + [b] == data;
      MessageMoved(data[..n], b);
      PlusAssociates(Shifted(before, 8), Shifted(message, 8), Shifted(BytePoly(b), 32));
    }
  }

  lemma NoMessage()
    ensures Shifted(Message([]), 32) == {}
  {
  }

  lemma MessageMoved(data: Bytes, b: Byte)
    ensures Shifted(Message(data + [b]), 32) == Plus(Shifted(Shifted(Message(data), 32), 8), Shifted(BytePoly(b), 32))
  {
    MessageNext(data, b);
    ShiftedPlus(Shifted(Message(data), 8), BytePoly(b), 32);
    ShiftedTwice(Message(data), 8, 32);
    ShiftedTwice(Message(data), 32, 8);
  }

  // The checksum as a number.

  lemma {:induction false} ToIntAt(w: seq<bool>, i: nat)
    requires i < |w|
    ensures BitSet(ToInt(w), i) <==> w[i]
  {
    if i > 0 {
      assert ToInt(w) / 2 == ToInt(w[1..]);
      ToIntAt(w[1..], i - 1);
    }
  }

  /** The bits of a 32-bit number, inverted, the least significant being the coefficient of x^31. */
  function InvertedPoly(n: nat): Poly {
    set i | 0 <= i < 32 && !BitSet(n, i) :: 31 - i
  }

  lemma InvertedIs(w: Word)
    ensures InvertedPoly(ToInt(w)) == PolyOf(Xor(w, AllOnes()))
  {
    hide BitSet, ToInt, PolyOf;
    forall e: nat ensures e in InvertedPoly(ToInt(w)) <==> e in PolyOf(Xor(w, AllOnes())) {
      PolyAt(Xor(w, AllOnes()), e);
      InvertedAt(ToInt(w), e);
      if e < 32 {
        ToIntAt(w, 31 - e);
      }
    }
  }

  lemma InvertedAt(n: nat, e: nat)
    ensures e in InvertedPoly(n) <==> e < 32 && !BitSet(n, 31 - e)
  {
    if e < 32 && !BitSet(n, 31 - e) {
      assert 31 - (31 - e) == e;
    }
  }

  /** Extending a checksum: inverted again, it is the remainder on division by the Castagnoli polynomial of what the checksum
      before stood for, moved up by the bits of the message, and the message moved up by 32. */
  lemma ExtendIsRemainder(crc: Word, data: Bytes)
    ensures Below(InvertedPoly(ToInt(Crc(crc, data))), 32)
    ensures Congruent(InvertedPoly(ToInt(Crc(crc, data))), Plus(Shifted(InvertedPoly(ToInt(crc)), 8 * |data|), Shifted(Message(data), 32)))
  {
    var init := Xor(crc, AllOnes());
    var register := AbsorbAll(init, data);
    hide AbsorbAll, Message, Congruent, Shifted, Plus, InvertedPoly, PolyOf, ToInt;
    RegisterCongruent(init, data);
    InvertedIs(crc);
    InvertedIs(Xor(register, AllOnes()));
    XorTwice(register, AllOnes());
    RegisterBelow(register);
  }

  /** CRC32C of a message: the same, with the first 32 coefficients of the message inverted. */
  lemma ValueIsRemainder(data: Bytes)
    ensures Below(InvertedPoly(Crc32c.Value(data)), 32)
    ensures Congruent(InvertedPoly(Crc32c.Value(data)), Plus(Shifted(InvertedPoly(0), 8 * |data|), Shifted(Message(data), 32)))
  {
    hide AbsorbAll, Message, Congruent, Shifted, Plus, InvertedPoly, PolyOf, Crc;
    ExtendIsRemainder(Zeros(32), data);
    ValueIs(data);
    ZeroWord(32);
  }

  lemma {:induction false} ZeroWord(n: nat)
    ensures ToInt(Zeros(n)) == 0
  {
    if n > 0 {
      ZeroWord(n - 1);
      assert Zeros(n)[1..] == Zeros(n - 1);
    }
  }

  lemma RegisterBelow(w: Word)
    ensures Below(PolyOf(w), 32)
  {
  }
}
