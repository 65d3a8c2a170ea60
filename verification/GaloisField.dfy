/**
 The field GF(256) with reduction polynomial 0x11D, as the erasure code builds it: addition is
 bitwise exclusive or, and powers of the generator 2 come from repeated doubling with reduction.

 Multiplication is defined here as carry-less polynomial multiplication, independently of any
 exponent or logarithm table; module GaloisTables proves that the tables agree with it.
 */
module GaloisField {
  import opened Octets

  const REDUCTION := 0x11D

  // ----- exclusive or on natural numbers -----

  /** Bitwise exclusive or, one bit at a time. */
  function Xor(a: nat, b: nat): (r: nat)
    decreases a + b
  {
    if a == 0 then b else if b == 0 then a
    else (if a % 2 == b % 2 then 0 else 1) + 2 * Xor(a / 2, b / 2)
  }

  lemma XorBits(a: nat, b: nat)
    ensures Xor(a, b) / 2 == Xor(a / 2, b / 2)
    ensures Xor(a, b) % 2 == if a % 2 == b % 2 then 0 else 1
  {
  }

  lemma XorDigit(a: nat, b: nat, x: nat, y: nat)
    requires x < 2 && y < 2
    ensures Xor(x + 2 * a, y + 2 * b) == (if x == y then 0 else 1) + 2 * Xor(a, b)
  {
    hide Xor;
    XorBits(x + 2 * a, y + 2 * b);
    assert (x + 2 * a) / 2 == a && (y + 2 * b) / 2 == b;
  }

  lemma XorIdentity(a: nat)
    ensures Xor(a, 0) == a
    ensures Xor(0, a) == a
  {
  }

  lemma XorCommutes(a: nat, b: nat)
    ensures Xor(a, b) == Xor(b, a)
  {
  }

  lemma XorSelf(a: nat)
    ensures Xor(a, a) == 0
  {
  }

  lemma {:induction false} XorAssociates(a: nat, b: nat, c: nat)
    ensures Xor(Xor(a, b), c) == Xor(a, Xor(b, c))
    decreases a + b + c
  {
    if a != 0 && b != 0 && c != 0 {
      XorAssociates(a / 2, b / 2, c / 2);
      XorBits(a, b);
      XorBits(b, c);
      XorBits(Xor(a, b), c);
      XorBits(a, Xor(b, c));
    }
  }

  /** `a` without its lowest `k` bits. */
  ghost function Halve(k: nat, a: nat): (r: nat)
  {
    if k == 0 then a else Halve(k - 1, a / 2)
  }

  lemma {:induction false} XorHalves(k: nat, a: nat, b: nat)
    ensures Halve(k, Xor(a, b)) == Xor(Halve(k, a), Halve(k, b))
  {
    hide Xor;
    if k != 0 {
      XorBits(a, b);
      XorHalves(k - 1, a / 2, b / 2);
    }
  }

  lemma HalveQuarter(k: nat, a: nat)
    requires 2 <= k
    ensures Halve(k, a) == Halve(k - 2, a / 4)
  {
    assert a / 2 / 2 == a / 4;
  }

  lemma HalveEight(a: nat)
    ensures Halve(7, a) == a / 128
    ensures Halve(8, a) == a / 256
  {
    assert Halve(7, a) == a / 128 by {
      HalveQuarter(7, a);
      HalveQuarter(5, a / 4);
      HalveQuarter(3, a / 16);
      assert Halve(1, a / 64) == a / 128;
      hide Halve;
    }
    HalveQuarter(8, a);
    HalveQuarter(6, a / 4);
    HalveQuarter(4, a / 16);
    HalveQuarter(2, a / 64);
    hide Halve;
  }

  lemma XorDigits(a0: nat, a1: nat, a2: nat, b: nat, c0: nat, c1: nat, c2: nat, d: nat)
    requires a0 < 2 && a1 < 2 && a2 < 2 && c0 < 2 && c1 < 2 && c2 < 2
    ensures Xor(a0 + 2 * (a1 + 2 * (a2 + 2 * b)), c0 + 2 * (c1 + 2 * (c2 + 2 * d)))
         == (if a0 == c0 then 0 else 1) + (if a1 == c1 then 0 else 2) + (if a2 == c2 then 0 else 4)
            + 8 * Xor(b, d)
  {
    hide Xor;
    XorDigit(a1 + 2 * (a2 + 2 * b), c1 + 2 * (c2 + 2 * d), a0, c0);
    XorDigit(a2 + 2 * b, c2 + 2 * d, a1, c1);
    XorDigit(b, d, a2, c2);
  }

  lemma OctalDigits(a: nat) returns (a0: nat, a1: nat, a2: nat)
    requires a < 8
    ensures a0 < 2 && a1 < 2 && a2 < 2 && a == a0 + 2 * (a1 + 2 * a2)
  {
    a0, a1, a2 := a % 2, a / 2 % 2, a / 4;
  }

  /** Exclusive or acts on the lowest three bits and on the rest separately. */
  lemma XorOctal(a: nat, b: nat, c: nat, d: nat)
    requires a < 8 && c < 8
    ensures Xor(a + 8 * b, c + 8 * d) == Xor(a, c) + 8 * Xor(b, d)
  {
    hide Xor;
    var a0, a1, a2 := OctalDigits(a);
    var c0, c1, c2 := OctalDigits(c);
    XorDigits(a0, a1, a2, b, c0, c1, c2, d);
    XorDigits(a0, a1, a2, 0, c0, c1, c2, 0);
    XorIdentity(0);
  }

  lemma XorFlips(q: nat)
    requires q < 8
    ensures Xor(q, 7) == 7 - q
    ensures Xor(8 + q, 8) == q
  {
    hide Xor;
    XorOctal(q, 1, 0, 1);
    XorIdentity(q);
    XorSelf(1);
    XorBits(q, 7);
    XorBits(q / 2, 3);
    XorBits(q / 4, 1);
    XorIdentity(0);
  }

  // ----- addition -----

  /** Addition in the field. */
  function Add(a: Byte, b: Byte): (r: Byte)
  {
    XorIsByte(a, b);
    Xor(a, b)
  }

  lemma XorIsByte(a: Byte, b: Byte)
    ensures Xor(a, b) < 256
  {
    hide Xor;
    XorHalves(8, a, b);
    HalveEight(a);
    HalveEight(b);
    HalveEight(Xor(a, b));
    XorIdentity(0);
  }

  lemma AddCommutes(a: Byte, b: Byte)
    ensures Add(a, b) == Add(b, a)
  {
    XorCommutes(a, b);
  }

  lemma AddAssociates(a: Byte, b: Byte, c: Byte)
    ensures Add(Add(a, b), c) == Add(a, Add(b, c))
  {
    XorAssociates(a, b, c);
  }

  lemma AddZero(a: Byte)
    ensures Add(a, 0) == a
    ensures Add(0, a) == a
    ensures Add(a, a) == 0
  {
    XorSelf(a);
  }

  /** Adding the same value twice changes nothing: every element is its own negative. */
  lemma AddCancels(a: Byte, b: Byte)
    ensures Add(Add(a, b), b) == a
    ensures Add(b, Add(b, a)) == a
  {
    hide Add;
    AddAssociates(a, b, b);
    AddAssociates(b, b, a);
    AddZero(b);
    AddZero(a);
  }

  /** Exchanges the inner two of four summands. */
  lemma AddExchange(a: Byte, b: Byte, c: Byte, d: Byte)
    ensures Add(Add(a, b), Add(c, d)) == Add(Add(a, c), Add(b, d))
  {
    hide Add;
    AddAssociates(a, b, Add(c, d));
    AddAssociates(b, c, d);
    AddCommutes(b, c);
    AddAssociates(c, b, d);
    AddAssociates(a, c, Add(b, d));
  }

  lemma AddIsZero(a: Byte, b: Byte)
    ensures Add(a, b) == 0 <==> a == b
  {
    hide Add;
    AddCancels(a, b);
    AddZero(b);
  }

  // ----- multiplication by the generator -----

  /** Multiplication by 2: shift left and reduce when the ninth bit is set. */
  function Xtime(a: Byte): (r: Byte)
  {
    if a < 128 then 2 * a else (TopBitCleared(a); Xor(2 * a, REDUCTION))
  }

  lemma TopBitCleared(a: Byte)
    requires 128 <= a
    ensures Xor(2 * a, REDUCTION) < 256
  {
    hide Xor;
    XorHalves(8, 2 * a, REDUCTION);
    HalveEight(2 * a);
    HalveEight(REDUCTION);
    HalveEight(Xor(2 * a, REDUCTION));
    XorSelf(1);
  }

  lemma AddHighBit(a: Byte, b: Byte)
    ensures Add(a, b) >= 128 <==> ((a >= 128) != (b >= 128))
  {
    hide Xor;
    XorHalves(7, a, b);
    HalveEight(a);
    HalveEight(b);
    HalveEight(Xor(a, b));
    XorIdentity(0);
    XorIdentity(1);
    XorSelf(1);
  }

  lemma XtimeIsLinear(a: Byte, b: Byte)
    ensures Xtime(Add(a, b)) == Add(Xtime(a), Xtime(b))
  {
    hide Xor;
    AddHighBit(a, b);
    var p, q, m := 2 * a, 2 * b, REDUCTION;
    XorDigit(a, b, 0, 0);
    XorAssociates(p, q, m);
    XorAssociates(p, m, q);
    XorCommutes(q, m);
    XorAssociates(Xor(p, m), q, m);
    XorAssociates(Xor(p, q), m, m);
    XorSelf(m);
    XorIdentity(Xor(p, q));
  }

  lemma XtimeIsInjective(a: Byte, b: Byte)
    requires Xtime(a) == Xtime(b)
    ensures a == b
  {
    hide Xor;
    XtimeIsLinear(a, b);
    AddZero(Xtime(a));
    AddIsZero(a, b);
    var d: int := Add(a, b);
    if d >= 128 {
      XorAssociates(2 * d, REDUCTION, REDUCTION);
      XorSelf(REDUCTION);
      XorIdentity(2 * d);
      XorIdentity(REDUCTION);
    }
  }

  // ----- multiplication -----

  /** Carry-less multiplication of polynomials, reduced: the sum of the doublings of `b` that the
      bits of `a` select. */
  function Mul(a: nat, b: Byte): (r: Byte)
  {
    if a == 0 then 0 else Add(if a % 2 == 1 then b else 0, Mul(a / 2, Xtime(b)))
  }

  /** One step of the definition, for zero too. */
  lemma MulHalf(a: nat, b: Byte)
    ensures Mul(a, b) == Add(if a % 2 == 1 then b else 0, Mul(a / 2, Xtime(b)))
  {
    AddZero(0);
  }

  lemma {:induction false} MulZero(a: nat, b: Byte)
    ensures Mul(a, 0) == 0
    ensures Mul(0, b) == 0
  {
    hide Add;
    AddZero(0);
    if a != 0 { MulZero(a / 2, b); }
  }

  lemma MulOne(b: Byte)
    ensures Mul(1, b) == b
  {
    hide Add;
    AddZero(b);
    assert Mul(1, b) == Add(b, Mul(0, Xtime(b)));
  }

  lemma {:induction false} MulDistributes(a: nat, b: Byte, c: Byte)
    ensures Mul(a, Add(b, c)) == Add(Mul(a, b), Mul(a, c))
  {
    hide Add, Xtime;
    if a != 0 {
      XtimeIsLinear(b, c);
      MulDistributes(a / 2, Xtime(b), Xtime(c));
      AddExchange(if a % 2 == 1 then b else 0, if a % 2 == 1 then c else 0,
                  Mul(a / 2, Xtime(b)), Mul(a / 2, Xtime(c)));
    }
    AddZero(0);
  }

  lemma {:induction false} MulDistributesOverXor(a: nat, b: nat, c: Byte)
    ensures Mul(Xor(a, b), c) == Add(Mul(a, c), Mul(b, c))
    decreases a + b
  {
    hide Xor, Add, Xtime, Mul;
    XorIdentity(a);
    XorIdentity(b);
    MulZero(0, c);
    AddZero(Mul(a, c));
    AddZero(Mul(b, c));
    if a != 0 && b != 0 {
      MulDistributesOverXor(a / 2, b / 2, Xtime(c));
      XorBits(a, b);
      AddExchange(if a % 2 == 1 then c else 0, Mul(a / 2, Xtime(c)),
                  if b % 2 == 1 then c else 0, Mul(b / 2, Xtime(c)));
      AddZero(c);
      AddZero(0);
      MulHalf(a, c);
      MulHalf(b, c);
      MulHalf(Xor(a, b), c);
    }
  }

  lemma MulDistributesLeft(a: Byte, b: Byte, c: Byte)
    ensures Mul(Add(a, b), c) == Add(Mul(a, c), Mul(b, c))
  {
    MulDistributesOverXor(a, b, c);
  }

  lemma {:induction false} MulXtimeRight(a: nat, b: Byte)
    ensures Mul(a, Xtime(b)) == Xtime(Mul(a, b))
  {
    assert Xtime(0) == 0;
    hide Add, Xtime;
    if a != 0 {
      MulXtimeRight(a / 2, Xtime(b));
      XtimeIsLinear(if a % 2 == 1 then b else 0, Mul(a / 2, Xtime(b)));
    }
  }

  /** The reduction polynomial itself multiplies everything to zero. */
  lemma {:induction false} ReductionVanishes(b: Byte)
    ensures Mul(REDUCTION, b) == 0
  {
    hide Add, Mul, Xtime;
    MulZero(REDUCTION, 0);
    assert Xtime(0) == 0 by { XtimeZero(); }
    if b != 0 {
      var low, high := b % 2, b / 2;
      ReductionVanishes(high);
      MulXtimeRight(REDUCTION, high);
      HighAndLow(b);
      assert Mul(REDUCTION, Xtime(high)) == 0;
      MulDistributes(REDUCTION, low, Xtime(high));
      ReductionOfOne();
      AddZero(0);
    }
  }

  lemma XtimeZero()
    ensures Xtime(0) == 0
  {
  }

  lemma HighAndLow(b: Byte)
    ensures b == Add(b % 2, Xtime(b / 2))
  {
    hide Xor;
    XorDigit(0, b / 2, b % 2, 0);
    XorIdentity(b / 2);
  }

  lemma ReductionOfOne()
    ensures Mul(REDUCTION, 1) == 0
  {
    hide Mul, Xor, Xtime;
    MulHalf(285, 1);
    MulHalf(142, 2);
    MulHalf(71, 4);
    MulHalf(35, 8);
    MulHalf(17, 16);
    MulHalf(8, 32);
    MulHalf(4, 64);
    MulHalf(2, 128);
    MulOne(29);
    ReductionDoublings();
    ReductionSums();
    XorIdentity(1);
    XorIdentity(29);
  }

  lemma ReductionDoublings()
    ensures Xtime(1) == 2 && Xtime(2) == 4 && Xtime(4) == 8 && Xtime(8) == 16
    ensures Xtime(16) == 32 && Xtime(32) == 64 && Xtime(64) == 128 && Xtime(128) == 29
  {
    DoubledIsXtime(128);
    hide Xor;
  }

  lemma ReductionSums()
    ensures Xor(16, 29) == 13 && Xor(8, 13) == 5 && Xor(4, 5) == 1 && Xor(1, 1) == 0
  {
    assert Xor(2, 3) == 1;
    hide Xor;
    XorOctal(0, 2, 5, 3);
    XorOctal(0, 1, 5, 1);
    XorIdentity(5);
    XorSelf(1);
    XorDigit(2, 2, 0, 1);
    XorSelf(2);
  }

  lemma MulXtimeLeft(a: Byte, b: Byte)
    ensures Mul(Xtime(a), b) == Xtime(Mul(a, b))
  {
    hide Xor, Mul, Add;
    MulXtimeRight(a, b);
    MulHalf(2 * a, b);
    AddZero(Mul(a, Xtime(b)));
    assert Mul(2 * a, b) == Mul(a, Xtime(b));
    if 128 <= a {
      MulDistributesOverXor(2 * a, REDUCTION, b);
      ReductionVanishes(b);
      AddZero(Mul(2 * a, b));
    }
  }

  /** Doubling as integer arithmetic, for evaluating the powers of 2: subtracting 256 and adding
      0x1D flips bits 0, 2, 3 and 4. */
  function Doubled(a: Byte): (r: Byte)
  {
    if a < 128 then 2 * a else 2 * a - 256 + 29 - 8 * ((2 * a - 256) / 4 % 8)
  }

  lemma DoubledIsXtime(a: Byte)
    ensures Doubled(a) == Xtime(a)
  {
    hide Xor;
    if 128 <= a {
      var u := a - 128;
      var p, q, t := u % 2, u / 2 % 8, u / 16;
      assert u == p + 2 * q + 16 * t;
      XorDigit(a, 142, 0, 1);
      assert a == p + 2 * (q + 8 * (8 + t));
      XorDigit(q + 8 * (8 + t), 71, p, 0);
      XorOctal(q, 8 + t, 7, 8);
      XorFlips(q);
      XorFlips(t);
      assert Xor(2 * a, 285) == 1 + 2 * (p + 2 * (7 - q + 8 * t));
      assert (2 * a - 256) / 4 == q + 8 * t;
    }
  }

  // ----- powers of the generator -----

  /** `b` doubled `k` times. */
  function Shift(k: nat, b: Byte): (r: Byte)
  {
    if k == 0 then b else Xtime(Shift(k - 1, b))
  }

  /** The k-th power of 2. */
  function Exp(k: nat): (r: Byte)
  {
    Shift(k, 1)
  }

  lemma {:induction false} ShiftAdds(j: nat, k: nat, b: Byte)
    ensures Shift(j + k, b) == Shift(j, Shift(k, b))
  {
    hide Xtime;
    if j != 0 { ShiftAdds(j - 1, k, b); }
  }

  lemma {:induction false} ShiftIsMul(k: nat, b: Byte)
    ensures Mul(Exp(k), b) == Shift(k, b)
  {
    hide Mul, Xtime;
    if k == 0 {
      MulOne(b);
    } else {
      ShiftIsMul(k - 1, b);
      MulXtimeLeft(Exp(k - 1), b);
    }
  }

  lemma ExpAdds(j: nat, k: nat)
    ensures Mul(Exp(j), Exp(k)) == Exp(j + k)
  {
    hide Mul, Xtime;
    ShiftIsMul(j, Exp(k));
    ShiftAdds(j, k, 1);
  }

  lemma {:induction false} ShiftIsInjective(k: nat, a: Byte, b: Byte)
    requires Shift(k, a) == Shift(k, b)
    ensures a == b
  {
    hide Xtime;
    if k != 0 {
      XtimeIsInjective(Shift(k - 1, a), Shift(k - 1, b));
      ShiftIsInjective(k - 1, a, b);
    }
  }

  // ----- the order of the generator -----

  lemma SeventeenDoublings(v0: Byte, v1: Byte, v2: Byte, v3: Byte, v4: Byte, v5: Byte, v6: Byte, v7: Byte, v8: Byte,
                           v9: Byte, v10: Byte, v11: Byte, v12: Byte, v13: Byte, v14: Byte, v15: Byte, v16: Byte,
                           v17: Byte)
    requires v1 == Doubled(v0) && v2 == Doubled(v1) && v3 == Doubled(v2) && v4 == Doubled(v3)
    requires v5 == Doubled(v4) && v6 == Doubled(v5) && v7 == Doubled(v6) && v8 == Doubled(v7)
    requires v9 == Doubled(v8) && v10 == Doubled(v9) && v11 == Doubled(v10) && v12 == Doubled(v11)
    requires v13 == Doubled(v12) && v14 == Doubled(v13) && v15 == Doubled(v14) && v16 == Doubled(v15)
    requires v17 == Doubled(v16)
    ensures v17 == Shift(17, v0)
  {
    hide Xtime, Doubled;
    DoubledIsXtime(v0);
    DoubledIsXtime(v1);
    DoubledIsXtime(v2);
    DoubledIsXtime(v3);
    DoubledIsXtime(v4);
    DoubledIsXtime(v5);
    DoubledIsXtime(v6);
    DoubledIsXtime(v7);
    DoubledIsXtime(v8);
    DoubledIsXtime(v9);
    DoubledIsXtime(v10);
    DoubledIsXtime(v11);
    DoubledIsXtime(v12);
    DoubledIsXtime(v13);
    DoubledIsXtime(v14);
    DoubledIsXtime(v15);
    DoubledIsXtime(v16);
    assert v1 == Shift(1, v0);
    assert v2 == Shift(2, v0);
    assert v3 == Shift(3, v0);
    assert v4 == Shift(4, v0);
    assert v5 == Shift(5, v0);
    assert v6 == Shift(6, v0);
    assert v7 == Shift(7, v0);
    assert v8 == Shift(8, v0);
    assert v9 == Shift(9, v0);
    assert v10 == Shift(10, v0);
    assert v11 == Shift(11, v0);
    assert v12 == Shift(12, v0);
    assert v13 == Shift(13, v0);
    assert v14 == Shift(14, v0);
    assert v15 == Shift(15, v0);
    assert v16 == Shift(16, v0);
    assert v17 == Shift(17, v0);
  }

  lemma Run0()
    ensures Shift(17, 1) == 152
  {
    SeventeenDoublings(1, 2, 4, 8, 16, 32, 64, 128, 29, 58, 116, 232, 205, 135, 19, 38, 76, 152);
  }

  lemma Run1()
    ensures Shift(17, 152) == 78
  {
    SeventeenDoublings(152, 45, 90, 180, 117, 234, 201, 143, 3, 6, 12, 24, 48, 96, 192, 157, 39, 78);
  }

  lemma Run2()
    ensures Shift(17, 78) == 10
  {
    SeventeenDoublings(78, 156, 37, 74, 148, 53, 106, 212, 181, 119, 238, 193, 159, 35, 70, 140, 5, 10);
  }

  lemma Run3()
    ensures Shift(17, 10) == 153
  {
    SeventeenDoublings(10, 20, 40, 80, 160, 93, 186, 105, 210, 185, 111, 222, 161, 95, 190, 97, 194, 153);
  }

  lemma Run4()
    ensures Shift(17, 153) == 214
  {
    SeventeenDoublings(153, 47, 94, 188, 101, 202, 137, 15, 30, 60, 120, 240, 253, 231, 211, 187, 107, 214);
  }

  lemma Run5()
    ensures Shift(17, 214) == 68
  {
    SeventeenDoublings(214, 177, 127, 254, 225, 223, 163, 91, 182, 113, 226, 217, 175, 67, 134, 17, 34, 68);
  }

  lemma Run6()
    ensures Shift(17, 68) == 147
  {
    SeventeenDoublings(68, 136, 13, 26, 52, 104, 208, 189, 103, 206, 129, 31, 62, 124, 248, 237, 199, 147);
  }

  lemma Run7()
    ensures Shift(17, 147) == 79
  {
    SeventeenDoublings(147, 59, 118, 236, 197, 151, 51, 102, 204, 133, 23, 46, 92, 184, 109, 218, 169, 79);
  }

  lemma Run8()
    ensures Shift(17, 79) == 146
  {
    SeventeenDoublings(79, 158, 33, 66, 132, 21, 42, 84, 168, 77, 154, 41, 82, 164, 85, 170, 73, 146);
  }

  lemma Run9()
    ensures Shift(17, 146) == 215
  {
    SeventeenDoublings(146, 57, 114, 228, 213, 183, 115, 230, 209, 191, 99, 198, 145, 63, 126, 252, 229, 215);
  }

  lemma Run10()
    ensures Shift(17, 215) == 220
  {
    SeventeenDoublings(215, 179, 123, 246, 241, 255, 227, 219, 171, 75, 150, 49, 98, 196, 149, 55, 110, 220);
  }

  lemma Run11()
    ensures Shift(17, 220) == 221
  {
    SeventeenDoublings(220, 165, 87, 174, 65, 130, 25, 50, 100, 200, 141, 7, 14, 28, 56, 112, 224, 221);
  }

  lemma Run12()
    ensures Shift(17, 221) == 69
  {
    SeventeenDoublings(221, 167, 83, 166, 81, 162, 89, 178, 121, 242, 249, 239, 195, 155, 43, 86, 172, 69);
  }

  lemma Run13()
    ensures Shift(17, 69) == 11
  {
    SeventeenDoublings(69, 138, 9, 18, 36, 72, 144, 61, 122, 244, 245, 247, 243, 251, 235, 203, 139, 11);
  }

  lemma Run14()
    ensures Shift(17, 11) == 1
  {
    SeventeenDoublings(11, 22, 44, 88, 176, 125, 250, 233, 207, 131, 27, 54, 108, 216, 173, 71, 142, 1);
  }

  lemma PowersOfTwo()
    ensures Exp(17) == 152 && Exp(34) == 78 && Exp(51) == 10 && Exp(68) == 153 && Exp(85) == 214
    ensures Exp(255) == 1
  {
    hide Shift;
    Run0();
    Run1(); ShiftAdds(17, 17, 1);
    Run2(); ShiftAdds(17, 34, 1);
    Run3(); ShiftAdds(17, 51, 1);
    Run4(); ShiftAdds(17, 68, 1);
    Run5(); ShiftAdds(17, 85, 1);
    Run6(); ShiftAdds(17, 102, 1);
    Run7(); ShiftAdds(17, 119, 1);
    Run8(); ShiftAdds(17, 136, 1);
    Run9(); ShiftAdds(17, 153, 1);
    Run10(); ShiftAdds(17, 170, 1);
    Run11(); ShiftAdds(17, 187, 1);
    Run12(); ShiftAdds(17, 204, 1);
    Run13(); ShiftAdds(17, 221, 1);
    Run14(); ShiftAdds(17, 238, 1);
  }

  lemma ExpOfFifteen()
    ensures Exp(15) != 1
  {
    PowersOfTwo();
    ShiftAdds(2, 15, 1);
    assert Shift(2, 1) == Xtime(Xtime(1)) == 4;
  }

  lemma ExpDifference(a: nat, b: nat)
    requires a <= b
    ensures Exp(a) == Exp(b) <==> Exp(b - a) == 1
  {
    hide Xtime;
    ShiftAdds(a, b - a, 1);
    if Exp(a) == Exp(b) {
      ShiftIsInjective(a, 1, Exp(b - a));
    }
  }

  lemma {:induction false} ExpMultiple(d: nat, q: nat, r: nat)
    requires Exp(d) == 1
    ensures Exp(q * d + r) == Exp(r)
  {
    hide Shift;
    if q != 0 {
      ExpMultiple(d, q - 1, r);
      assert q * d + r == ((q - 1) * d + r) + d;
      ShiftAdds((q - 1) * d + r, d, 1);
    }
  }

  lemma ExpRemainder(d: nat, n: nat)
    requires 0 < d && Exp(d) == 1
    ensures Exp(n) == Exp(n % d)
  {
    hide Shift;
    ExpMultiple(d, n / d, n % d);
    assert n == n / d * d + n % d;
  }

  lemma DivisorsOf255(d: nat)
    requires 0 < d < 255 && 255 % d == 0
    ensures 85 % d == 0 || 51 % d == 0 || 15 % d == 0
  {
    var q := 255 / d;
    assert q * d == 255;
    if d <= 15 {
      assert d == 1 || d == 2 || d == 3 || d == 4 || d == 5 || d == 6 || d == 7 || d == 8
          || d == 9 || d == 10 || d == 11 || d == 12 || d == 13 || d == 14 || d == 15;
    } else {
      assert q >= 16 ==> q * d >= 16 * d;
      assert q == 1 || q == 2 || q == 3 || q == 4 || q == 5 || q == 6 || q == 7 || q == 8
          || q == 9 || q == 10 || q == 11 || q == 12 || q == 13 || q == 14 || q == 15;
      assert d == 85 || d == 51 || d == 17;
    }
  }

  /** The generator has order exactly 255: no smaller positive power of it is one. */
  lemma {:induction false} NoSmallerOrder(d: nat)
    requires 0 < d < 255
    ensures Exp(d) != 1
  {
    hide Shift;
    if Exp(d) == 1 {
      PowersOfTwo();
      ExpRemainder(d, 255);
      if 255 % d != 0 {
        NoSmallerOrder(255 % d);
      } else {
        DivisorsOf255(d);
        ExpOfFifteen();
        ExpRemainder(d, 85);
        ExpRemainder(d, 51);
        ExpRemainder(d, 15);
        ExpZero();
      }
    }
  }

  lemma ExpZero()
    ensures Exp(0) == 1
  {
  }

  lemma ExpIsInjective(i: nat, j: nat)
    requires i < j < 255
    ensures Exp(i) != Exp(j)
  {
    hide Exp;
    ExpDifference(i, j);
    NoSmallerOrder(j - i);
  }

  lemma {:induction false} ExpIsNonzero(k: nat)
    ensures Exp(k) != 0
  {
    if k != 0 {
      ExpIsNonzero(k - 1);
      if Exp(k) == 0 { XtimeIsInjective(Exp(k - 1), 0); }
    }
  }

  // ----- discrete logarithms -----

  ghost function Powers(n: nat): (s: set<int>)
  {
    if n == 0 then {} else Powers(n - 1) + {Exp(n - 1)}
  }

  ghost function Positives(n: nat): (s: set<int>)
  {
    if n == 0 then {} else Positives(n - 1) + {n}
  }

  lemma {:induction false} PowersAreDistinct(n: nat)
    requires n <= 255
    ensures |Powers(n)| == n
    ensures forall v :: v in Powers(n) <==> exists k :: 0 <= k < n && v == Exp(k)
  {
    hide Exp;
    if n != 0 {
      PowersAreDistinct(n - 1);
      if Exp(n - 1) in Powers(n - 1) {
        var k :| 0 <= k < n - 1 && Exp(n - 1) == Exp(k);
        ExpIsInjective(k, n - 1);
      }
    }
  }

  lemma {:induction false} PositivesAreCounted(n: nat)
    ensures |Positives(n)| == n
    ensures forall v :: v in Positives(n) <==> 0 < v <= n
  {
    if n != 0 { PositivesAreCounted(n - 1); }
  }

  /** Every nonzero element is a power of the generator. */
  lemma LogExists(v: Byte)
    requires v != 0
    ensures exists k: nat :: k < 255 && Exp(k) == v
  {
    hide Exp;
    PowersAreDistinct(255);
    PositivesAreCounted(255);
    forall w | w in Powers(255)
      ensures w in Positives(255)
    {
      var k :| 0 <= k < 255 && w == Exp(k);
      ExpIsNonzero(k);
    }
    SubsetSize(Powers(255), Positives(255));
    assert v in Powers(255);
  }

  ghost function Log(v: Byte): (k: nat)
    requires v != 0
    ensures k < 255 && Exp(k) == v
  {
    LogExists(v);
    var k: nat :| k < 255 && Exp(k) == v;
    k
  }

  lemma ExpPeriod(k: nat)
    ensures Exp(k + 255) == Exp(k)
  {
    hide Shift;
    PowersOfTwo();
    ShiftAdds(k, 255, 1);
  }

  // ----- the field laws -----

  /** The logarithm turns products into sums: the product is the table entry at the sum of two logarithms. */
  lemma MulByLogs(a: Byte, b: Byte)
    requires a != 0 && b != 0
    ensures Mul(a, b) == Exp(Log(a) + Log(b))
  {
    hide Mul, Exp, Log;
    ExpAdds(Log(a), Log(b));
  }

  lemma MulCommutes(a: Byte, b: Byte)
    ensures Mul(a, b) == Mul(b, a)
  {
    hide Mul, Exp, Log;
    MulZero(a, a);
    MulZero(b, b);
    if a != 0 && b != 0 {
      MulByLogs(a, b);
      MulByLogs(b, a);
    }
  }

  lemma MulIsZero(a: Byte, b: Byte)
    ensures Mul(a, b) == 0 <==> a == 0 || b == 0
  {
    hide Mul, Exp, Log;
    MulZero(a, b);
    if a != 0 && b != 0 {
      MulByLogs(a, b);
      ExpIsNonzero(Log(a) + Log(b));
    }
  }

  lemma MulAssociates(a: Byte, b: Byte, c: Byte)
    ensures Mul(Mul(a, b), c) == Mul(a, Mul(b, c))
  {
    hide Mul, Exp, Log;
    if a == 0 || b == 0 || c == 0 {
      MulIsZero(a, b);
      MulIsZero(b, c);
      MulIsZero(Mul(a, b), c);
      MulIsZero(a, Mul(b, c));
    } else {
      var i, j, k := Log(a), Log(b), Log(c);
      ExpAdds(i, j);
      ExpAdds(j, k);
      ExpAdds(i + j, k);
      ExpAdds(i, j + k);
    }
  }

  /** The multiplicative inverse, and zero for zero. */
  ghost function Inverse(v: Byte): (r: Byte)
    ensures v != 0 ==> Mul(v, r) == 1
    ensures r == 0 <==> v == 0
  {
    if v == 0 then 0 else InverseOfLog(v); Exp(255 - Log(v))
  }

  lemma InverseOfLog(v: Byte)
    requires v != 0
    ensures Mul(v, Exp(255 - Log(v))) == 1
    ensures Exp(255 - Log(v)) != 0
  {
    hide Mul, Exp, Log;
    ExpAdds(Log(v), 255 - Log(v));
    PowersOfTwo();
    ExpIsNonzero(255 - Log(v));
  }
}
