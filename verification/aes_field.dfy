/** The field GF(2^8) of section 4.2 of FIPS 197, and its generator 3. */
module AesField {
  import opened Common

  /** Addition, section 4.1. */
  function Plus(a: bv8, b: bv8): bv8 { a ^ b }

  /** Multiplication by x, section 4.2.1. */
  function XTime(b: bv8): bv8 {
    if b & 0x80 == 0 then b << 1 else (b << 1) ^ 0x1b
  }

  /** v or nothing, as the low bit of a says. */
  function Times(a: bv8, v: bv8): bv8 {
    if a & 1 == 0 then 0 else v
  }

  function Half(a: bv8): bv8 { a >> 1 }

  /** The sum of x^i * b over the n low bits i of a. */
  function MulBits(a: bv8, b: bv8, n: nat): bv8
    decreases n
  {
    if n == 0 then 0 else Plus(Times(a, b), MulBits(Half(a), XTime(b), n - 1))
  }

  /** Multiplication, section 4.2. */
  function Mul(a: bv8, b: bv8): bv8 {
    MulBits(a, b, 8)
  }

  // ------------------------------------------------------------------
  // Linearity
  // ------------------------------------------------------------------

  lemma XTimeFlat(b: bv8)
    ensures XTime(b) == (b << 1) ^ ((0 - (b >> 7)) & 0x1b)
  {}

  lemma TimesFlat(a: bv8, v: bv8)
    ensures Times(a, v) == (0 - (a & 1)) & v
  {}

  lemma XTimePlus(a: bv8, b: bv8)
    ensures XTime(Plus(a, b)) == Plus(XTime(a), XTime(b))
  {
    hide XTime;
    XTimeFlat(a);
    XTimeFlat(b);
    XTimeFlat(a ^ b);
  }

  lemma TimesPlus(a: bv8, v: bv8, w: bv8)
    ensures Times(a, Plus(v, w)) == Plus(Times(a, v), Times(a, w))
  {
    hide Times;
    TimesFlat(a, v);
    TimesFlat(a, w);
    TimesFlat(a, v ^ w);
  }

  lemma XTimeTimes(a: bv8, v: bv8)
    ensures XTime(Times(a, v)) == Times(a, XTime(v))
  {}

  lemma XTimeZero()
    ensures XTime(0) == 0
  {}

  lemma PlusAssoc(a: bv8, b: bv8, c: bv8)
    ensures Plus(Plus(a, b), c) == Plus(a, Plus(b, c)) && Plus(a, b) == Plus(b, a)
  {}

  lemma PlusSwap(a: bv8, b: bv8, c: bv8, d: bv8)
    ensures Plus(Plus(a, b), Plus(c, d)) == Plus(Plus(a, c), Plus(b, d))
  {
    hide Plus;
    PlusAssoc(a, b, Plus(c, d));
    PlusAssoc(b, c, d);
    PlusAssoc(c, b, d);
    PlusAssoc(a, c, Plus(b, d));
  }

  lemma PlusZero(a: bv8)
    ensures Plus(a, 0) == a && Plus(0, a) == a && Plus(a, a) == 0
  {}

  lemma {:induction false} MulBitsPlus(a: bv8, b: bv8, c: bv8, n: nat)
    ensures MulBits(a, Plus(b, c), n) == Plus(MulBits(a, b, n), MulBits(a, c, n))
    decreases n
  {
    hide XTime, Times, Half, Plus;
    if n == 0 {
      PlusZero(0);
    } else {
      XTimePlus(b, c);
      TimesPlus(a, b, c);
      MulBitsPlus(Half(a), XTime(b), XTime(c), n - 1);
      PlusSwap(Times(a, b), Times(a, c), MulBits(Half(a), XTime(b), n - 1), MulBits(Half(a), XTime(c), n - 1));
    }
  }

  lemma {:induction false} MulBitsXTime(a: bv8, b: bv8, n: nat)
    ensures MulBits(a, XTime(b), n) == XTime(MulBits(a, b, n))
    decreases n
  {
    hide XTime, Times, Half, Plus;
    if n == 0 {
      XTimeZero();
    } else {
      MulBitsXTime(Half(a), XTime(b), n - 1);
      XTimeTimes(a, b);
      XTimePlus(Times(a, b), MulBits(Half(a), XTime(b), n - 1));
    }
  }

  lemma MulPlus(a: bv8, b: bv8, c: bv8)
    ensures Mul(a, Plus(b, c)) == Plus(Mul(a, b), Mul(a, c))
  {
    hide Plus, MulBits;
    MulBitsPlus(a, b, c, 8);
  }

  lemma HalfPlus(a: bv8, b: bv8)
    ensures Half(Plus(a, b)) == Plus(Half(a), Half(b))
  {}

  lemma TimesPlusLeft(a: bv8, b: bv8, v: bv8)
    ensures Times(Plus(a, b), v) == Plus(Times(a, v), Times(b, v))
  {
    hide Times;
    TimesFlat(a, v);
    TimesFlat(b, v);
    TimesFlat(a ^ b, v);
  }

  lemma {:induction false} MulBitsPlusLeft(a: bv8, b: bv8, c: bv8, n: nat)
    ensures MulBits(Plus(a, b), c, n) == Plus(MulBits(a, c, n), MulBits(b, c, n))
    decreases n
  {
    hide XTime, Times, Half, Plus;
    if n == 0 {
      PlusZero(0);
    } else {
      HalfPlus(a, b);
      TimesPlusLeft(a, b, c);
      MulBitsPlusLeft(Half(a), Half(b), XTime(c), n - 1);
      PlusSwap(Times(a, c), Times(b, c), MulBits(Half(a), XTime(c), n - 1), MulBits(Half(b), XTime(c), n - 1));
    }
  }

  lemma MulPlusLeft(a: bv8, b: bv8, c: bv8)
    ensures Mul(Plus(a, b), c) == Plus(Mul(a, c), Mul(b, c))
  {
    hide Plus, MulBits;
    MulBitsPlusLeft(a, b, c, 8);
  }

  lemma MulZero(a: bv8)
    ensures Mul(a, 0) == 0
  {
    hide Mul, Plus;
    MulPlus(a, 0, 0);
    PlusZero(0);
    PlusZero(Mul(a, 0));
  }

  /** b times 3, the way the power table goes from one entry to the next. */
  function Triple(b: bv8): bv8 {
    Plus(b, XTime(b))
  }

  lemma MulTriple(a: bv8, b: bv8)
    ensures Mul(a, Triple(b)) == Triple(Mul(a, b))
  {
    hide MulBits, XTime, Plus;
    MulPlus(a, b, XTime(b));
    MulBitsXTime(a, b, 8);
  }

  /** Multiplication written out. */
  function MulUnrolled(a: bv8, b: bv8): bv8 {
    var (b1, a1) := (XTime(b), Half(a));
    var (b2, a2) := (XTime(b1), Half(a1));
    var (b3, a3) := (XTime(b2), Half(a2));
    var (b4, a4) := (XTime(b3), Half(a3));
    var (b5, a5) := (XTime(b4), Half(a4));
    var (b6, a6) := (XTime(b5), Half(a5));
    var (b7, a7) := (XTime(b6), Half(a6));
    Plus(Times(a, b), Plus(Times(a1, b1), Plus(Times(a2, b2), Plus(Times(a3, b3),
    Plus(Times(a4, b4), Plus(Times(a5, b5), Plus(Times(a6, b6), Plus(Times(a7, b7), 0))))))))
  }

  lemma MulIs(a: bv8, b: bv8)
    ensures Mul(a, b) == MulUnrolled(a, b)
  {
    hide XTime, Times, Half, Plus;
    var (b4, a4) := (XTime(XTime(XTime(XTime(b)))), Half(Half(Half(Half(a)))));
    FourBits(a, b, 4);
    FourBits(a4, b4, 0);
  }

  lemma FourBits(a: bv8, b: bv8, n: nat)
    ensures var (b1, a1) := (XTime(b), Half(a));
      var (b2, a2) := (XTime(b1), Half(a1));
      var (b3, a3) := (XTime(b2), Half(a2));
      var (b4, a4) := (XTime(b3), Half(a3));
      MulBits(a, b, n + 4) ==
        Plus(Times(a, b), Plus(Times(a1, b1), Plus(Times(a2, b2), Plus(Times(a3, b3), MulBits(a4, b4, n)))))
  {
    hide XTime, Times, Half, Plus;
    var (b1, a1) := (XTime(b), Half(a));
    var (b2, a2) := (XTime(b1), Half(a1));
    var (b3, a3) := (XTime(b2), Half(a2));
    assert MulBits(a3, b3, n + 1) == Plus(Times(a3, b3), MulBits(Half(a3), XTime(b3), n));
    assert MulBits(a2, b2, n + 2) == Plus(Times(a2, b2), MulBits(a3, b3, n + 1));
    assert MulBits(a1, b1, n + 3) == Plus(Times(a1, b1), MulBits(a2, b2, n + 2));
  }

  lemma MulOne(a: bv8)
    ensures Mul(a, 1) == a
  {
    hide MulBits;
    MulIs(a, 1);
  }

  // ------------------------------------------------------------------
  // Powers of 3
  // ------------------------------------------------------------------

  function Power(n: nat): bv8 {
    if n == 0 then 1 else Triple(Power(n - 1))
  }

  lemma {:induction false} PowerAdd(i: nat, j: nat)
    ensures Power(i + j) == Mul(Power(i), Power(j))
  {
    hide Mul, Triple;
    if j == 0 {
      MulOne(Power(i));
    } else {
      PowerAdd(i, j - 1);
      MulTriple(Power(i), Power(j - 1));
    }
  }

  lemma PowerSum(i: nat, j: nat, a: bv8, b: bv8, c: bv8)
    requires Power(i) == a && Power(j) == b && MulUnrolled(a, b) == c
    ensures Power(i + j) == c
  {
    hide Power, Mul, MulUnrolled;
    PowerAdd(i, j);
    MulIs(a, b);
  }

  /** 3^255 is 1, and no smaller power with an exponent dividing 255 is. */
  lemma PowersOfThree()
    ensures Power(15) != 1 && Power(51) != 1 && Power(85) != 1 && Power(255) == 1
  {
    assert Power(1) == 0x03 by { assert Power(0) == 1; }
    hide Power;
    PowerSum(1, 1, 0x03, 0x03, 0x05);
    PowerSum(2, 2, 0x05, 0x05, 0x11);
    PowerSum(4, 1, 0x11, 0x03, 0x33);
    PowerSum(5, 5, 0x33, 0x33, 0x72);
    PowerSum(10, 5, 0x72, 0x33, 0x35);
    PowerSum(4, 4, 0x11, 0x11, 0x1a);
    PowerSum(8, 8, 0x1a, 0x1a, 0x5f);
    PowerSum(16, 1, 0x5f, 0x03, 0xe1);
    PowerSum(17, 17, 0xe1, 0xe1, 0x5c);
    PowerSum(34, 17, 0x5c, 0xe1, 0x0c);
    PowerSum(34, 34, 0x5c, 0x5c, 0xe0);
    PowerSum(68, 17, 0xe0, 0xe1, 0xbd);
    PowerSum(85, 85, 0xbd, 0xbd, 0xbc);
    PowerSum(170, 85, 0xbc, 0xbd, 0x01);
  }

  lemma PowerAround(n: nat)
    ensures Power(n + 255) == Power(n)
  {
    hide Power, Mul;
    PowersOfThree();
    PowerAdd(n, 255);
    MulOne(Power(n));
  }

  // ------------------------------------------------------------------
  // 3 generates the field
  // ------------------------------------------------------------------

  /** The exponents that give 1 are closed under subtraction, ... */
  lemma PeriodMinus(a: nat, b: nat)
    requires Power(a) == 1 && Power(a + b) == 1
    ensures Power(b) == 1
  {
    hide Power, Mul;
    PowerAdd(b, a);
    MulOne(Power(b));
  }

  lemma {:induction false} PeriodTimes(a: nat, k: nat)
    requires Power(a) == 1
    ensures Power(a * k) == 1
  {
    if k == 0 {
      assert a * 0 == 0;
    } else {
      hide Power, Mul;
      PeriodTimes(a, k - 1);
      PowerAdd(a * (k - 1), a);
      MulOne(Power(a * (k - 1)));
      assert a * k == a * (k - 1) + a;
    }
  }

  function Gcd(a: nat, b: nat): (g: nat)
    requires a > 0 || b > 0
    ensures g > 0
    decreases a + b
  {
    if a == 0 then b else if b == 0 then a
    else if a <= b then Gcd(a, b - a) else Gcd(a - b, b)
  }

  /** ... and so under greatest common divisors. */
  lemma {:induction false} PeriodGcd(a: nat, b: nat)
    requires (a > 0 || b > 0) && Power(a) == 1 && Power(b) == 1
    ensures Power(Gcd(a, b)) == 1
    decreases a + b
  {
    hide Power;
    if a != 0 && b != 0 {
      if a <= b {
        PeriodMinus(a, b - a);
        PeriodGcd(a, b - a);
      } else {
        PeriodMinus(b, a - b);
        PeriodGcd(a - b, b);
      }
    }
  }

  lemma {:induction false} GcdDivides(a: nat, b: nat)
    requires a > 0 || b > 0
    ensures Gcd(a, b) > 0 && exists m: nat, n: nat :: a == m * Gcd(a, b) && b == n * Gcd(a, b)
    decreases a + b
  {
    var g := Gcd(a, b);
    if a == 0 {
      assert a == 0 * g && b == 1 * g;
    } else if b == 0 {
      assert a == 1 * g && b == 0 * g;
    } else if a <= b {
      GcdDivides(a, b - a);
      var m: nat, n: nat :| a == m * g && b - a == n * g;
      assert b == (m + n) * g;
    } else {
      GcdDivides(a - b, b);
      var m: nat, n: nat :| a - b == m * g && b == n * g;
      assert a == (m + n) * g;
    }
  }

  /** A proper divisor of 255 divides 85, 51 or 15. */
  lemma ProperDivisor(g: nat, k: nat)
    requires g * k == 255 && g < 255
    ensures k % 3 == 0 || k % 5 == 0 || k % 17 == 0
  {
    if g <= 16 {
      SmallFactor(g, k);
    } else {
      if k > 15 {
        MulMonotone(16, k, g);
      }
      SmallFactor(k, g);
      assert k != 1;
    }
  }

  /** The ways to write 255 as a product, by the smaller factor. */
  lemma SmallFactor(a: nat, b: nat)
    requires a * b == 255 && a <= 16
    ensures (a == 1 && b == 255) || (a == 3 && b == 85) || (a == 5 && b == 51) || (a == 15 && b == 17)
  {
    if a == 0 || a == 1 || a == 2 || a == 3 || a == 4 || a == 5 || a == 6 || a == 7 || a == 8 {
    } else if a == 9 || a == 10 || a == 11 || a == 12 || a == 13 || a == 14 || a == 15 || a == 16 {
    }
  }

  /** No exponent below 255 gives 1 but 0. */
  lemma OrderOfThree(d: nat)
    requires 0 < d < 255
    ensures Power(d) != 1
  {
    hide Power;
    if Power(d) == 1 {
      PowersOfThree();
      PeriodGcd(d, 255);
      GcdDivides(d, 255);
      var g := Gcd(d, 255);
      var m: nat, k: nat :| d == m * g && 255 == k * g;
      if m < 1 {
        MulMonotone(m, 0, g);
      }
      MulMonotone(1, m, g);
      ProperDivisor(g, k);
      if k % 3 == 0 {
        Multiple(g, k, 3, 85);
      } else if k % 5 == 0 {
        Multiple(g, k, 5, 51);
      } else {
        Multiple(g, k, 17, 15);
      }
    }
  }

  lemma Multiple(g: nat, k: nat, q: Pos, n: nat)
    requires Power(g) == 1 && k * g == 255 && k % q == 0 && q * n == 255
    ensures Power(n) == 1
  {
    hide Power;
    var j := k / q;
    assert k == q * j;
    assert q * (g * j) == 255;
    assert g * j == n by {
      if g * j < n {
        MulMonotone(g * j + 1, n, q);
      } else if g * j > n {
        MulMonotone(n + 1, g * j, q);
      }
    }
    PeriodTimes(g, j);
  }

  lemma PowersDiffer(i: nat, j: nat)
    requires i < j < 255
    ensures Power(i) != Power(j)
  {
    hide Power, Mul;
    if Power(i) == Power(j) {
      PowerAdd(255 - i, i);
      PowerAdd(255 - i, j);
      PowersOfThree();
      PowerAround(j - i);
      OrderOfThree(j - i);
    }
  }

  /** The first n powers. */
  ghost function Powers(n: nat): set<bv8> {
    if n == 0 then {} else Powers(n - 1) + {Power(n - 1)}
  }

  lemma {:induction false} PowersMembers(n: nat, a: bv8)
    ensures a in Powers(n) <==> exists i :: 0 <= i < n && Power(i) == a
  {
    hide Power;
    if n > 0 {
      PowersMembers(n - 1, a);
      assert a == Power(n - 1) ==> exists i :: 0 <= i < n && Power(i) == a;
      assert a in Powers(n) <==> a in Powers(n - 1) || a == Power(n - 1);
      if i :| 0 <= i < n && Power(i) == a {
        assert i < n - 1 || a == Power(n - 1);
      }
    }
  }

  lemma {:induction false} PowersCount(n: nat)
    requires n <= 255
    ensures |Powers(n)| == n
  {
    hide Power;
    if n > 0 {
      PowersCount(n - 1);
      PowersMembers(n - 1, Power(n - 1));
      if Power(n - 1) in Powers(n - 1) {
        var i :| 0 <= i < n - 1 && Power(i) == Power(n - 1);
        PowersDiffer(i, n - 1);
      }
    }
  }

  /** The bytes from 1 to n. */
  ghost function Bytes(n: nat): set<bv8>
    requires n < 256
  {
    if n == 0 then {} else Bytes(n - 1) + {n as bv8}
  }

  lemma {:induction false} BytesCount(n: nat)
    requires n < 256
    ensures |Bytes(n)| <= n
  {
    if n > 0 {
      BytesCount(n - 1);
    }
  }

  lemma {:induction false} BytesMembers(n: nat, i: nat)
    requires 1 <= i <= n < 256
    ensures i as bv8 in Bytes(n)
  {
    if i < n {
      BytesMembers(n - 1, i);
    }
  }

  lemma InBytes(a: bv8)
    requires a != 0
    ensures a in Bytes(255)
  {
    hide Bytes;
    BytesMembers(255, a as int);
  }

  lemma {:induction false} PowerNotZero(n: nat)
    ensures Power(n) != 0
  {
    if n > 0 {
      PowerNotZero(n - 1);
      TripleNotZero(Power(n - 1));
    }
  }

  lemma TripleNotZero(b: bv8)
    requires b != 0
    ensures Triple(b) != 0
  {}

  lemma SubsetFull<T>(a: set<T>, b: set<T>)
    requires a <= b && |a| >= |b|
    ensures a == b
  {
    assert |b - a| == |b| - |a|;
  }

  /** Every byte but 0 is a power of 3. */
  lemma EveryByteIsPower(a: bv8) returns (i: nat)
    requires a != 0
    ensures i < 255 && Power(i) == a
  {
    hide Power, Bytes, Powers;
    forall b | b in Powers(255) ensures b in Bytes(255) {
      PowersMembers(255, b);
      var j :| 0 <= j < 255 && Power(j) == b;
      PowerNotZero(j);
      InBytes(b);
    }
    PowersCount(255);
    BytesCount(255);
    SubsetFull(Powers(255), Bytes(255));
    InBytes(a);
    PowersMembers(255, a);
    i :| 0 <= i < 255 && Power(i) == a;
  }

  // ------------------------------------------------------------------
  // Inverses
  // ------------------------------------------------------------------

  lemma MulZeroLeft(b: bv8)
    ensures Mul(0, b) == 0
  {
    hide Mul, Plus;
    MulPlusLeft(0, 0, b);
    PlusZero(0);
    PlusZero(Mul(0, b));
  }

  lemma MulComm(a: bv8, b: bv8)
    ensures Mul(a, b) == Mul(b, a)
    ensures a != 0 && b != 0 ==> Mul(a, b) != 0
  {
    hide Power, Mul;
    if a == 0 || b == 0 {
      MulZero(a);
      MulZero(b);
      MulZeroLeft(a);
      MulZeroLeft(b);
    } else {
      var i := EveryByteIsPower(a);
      var j := EveryByteIsPower(b);
      PowerAdd(i, j);
      PowerAdd(j, i);
      PowerNotZero(i + j);
    }
  }

  lemma MulAssoc(a: bv8, b: bv8, c: bv8)
    ensures Mul(a, Mul(b, c)) == Mul(Mul(a, b), c)
  {
    hide Power, Mul;
    if a == 0 || b == 0 || c == 0 {
      MulZero(a);
      MulZero(b);
      MulZero(Mul(a, b));
      MulZeroLeft(b);
      MulZeroLeft(c);
      MulZeroLeft(Mul(b, c));
    } else {
      var i := EveryByteIsPower(a);
      var j := EveryByteIsPower(b);
      var k := EveryByteIsPower(c);
      PowerAdd(j, k);
      PowerAdd(i, j + k);
      PowerAdd(i, j);
      PowerAdd(i + j, k);
    }
  }

  lemma InverseExists(a: bv8) returns (b: bv8)
    requires a != 0
    ensures Mul(a, b) == 1 && b != 0
  {
    hide Power, Mul;
    var i := EveryByteIsPower(a);
    b := Power(255 - i);
    PowerAdd(i, 255 - i);
    PowersOfThree();
    PowerNotZero(255 - i);
  }

  lemma InverseUnique(a: bv8, b: bv8, c: bv8)
    requires a != 0 && Mul(a, b) == 1 && Mul(a, c) == 1
    ensures b == c
  {
    hide Mul, Plus;
    MulPlus(a, b, c);
    PlusZero(1);
    if Plus(b, c) != 0 {
      MulComm(a, Plus(b, c));
    }
    PlusEqual(b, c);
  }

  lemma PlusEqual(a: bv8, b: bv8)
    ensures Plus(a, b) == 0 <==> a == b
  {}
}
