/** Serpent: the bit-sliced encrypt and decrypt of serpent.c, for every expanded key. */
module SerpentWords {
  import opened Common

  /** A word of 32 bits, the low-order bit first. */
  type Word = w: seq<bool> | |w| == 32 witness seq(32, _ => false)

  function Xor(x: Word, y: Word): Word { seq(32, i requires 0 <= i < 32 => x[i] != y[i]) }
  function And(x: Word, y: Word): Word { seq(32, i requires 0 <= i < 32 => x[i] && y[i]) }
  function Or(x: Word, y: Word): Word { seq(32, i requires 0 <= i < 32 => x[i] || y[i]) }
  function Not(x: Word): Word { seq(32, i requires 0 <= i < 32 => !x[i]) }

  function Rol(x: Word, n: nat): Word
    requires n < 32
  {
    x[32 - n..] + x[..32 - n]
  }

  function Ror(x: Word, n: nat): Word
    requires n < 32
  {
    x[n..] + x[..n]
  }

  function Shl(x: Word, n: nat): Word
    requires n < 32
  {
    seq(n, _ => false) + x[..32 - n]
  }

  lemma XorTwice(x: Word, y: Word)
    ensures Xor(Xor(x, y), y) == x
  {}

  lemma XorSwap(x: Word, y: Word, z: Word)
    ensures Xor(Xor(x, y), z) == Xor(Xor(x, z), y)
  {}

  lemma RorRol(x: Word, n: nat)
    requires n < 32
    ensures Ror(Rol(x, n), n) == x
  {}

  // ------------------------------------------------------------------
  // Words as numbers
  // ------------------------------------------------------------------

  /** The sum of 2^i over the bits i that are set. */
  function Number(w: seq<bool>): (n: nat)
    ensures n < Pow2(|w|)
  {
    if w == [] then 0
    else (if w[|w| - 1] then Pow2(|w| - 1) else 0) + Number(w[..|w| - 1])
  }

  lemma {:induction false} NumberZeros(n: nat)
    ensures Number(seq(n, _ => false)) == 0
  {
    if n > 0 {
      var w := seq(n, _ => false);
      assert w[..n - 1] == seq(n - 1, _ => false);
      NumberZeros(n - 1);
    }
  }

  lemma Spread(lo: nat, hi: nat, p: nat, q: nat)
    ensures (lo + p * hi) * q == hi * (p * q) + lo * q && (lo + 1) * q == lo * q + q
  {}

  lemma Distributes(p: nat, a: nat, b: nat)
    ensures p * (a + b) == p * a + p * b
  {}

  lemma NumberTop(w: seq<bool>, n: nat)
    requires |w| == n + 1
    ensures Number(w) == (if w[n] then Pow2(n) else 0) + Number(w[..n])
  {}

  lemma {:induction false} NumberJoin(v: seq<bool>, w: seq<bool>)
    ensures Number(v + w) == Number(v) + Pow2(|v|) * Number(w)
    decreases |w|
  {
    hide Number, Pow2;
    if w == [] {
      NumberZeros(0);
      assert v + w == v && w == seq(0, _ => false);
    } else {
      var n := |w| - 1;
      assert (v + w)[..|v| + n] == v + w[..n];
      NumberTop(v + w, |v| + n);
      NumberTop(w, n);
      NumberJoin(v, w[..n]);
      Pow2Add(|v|, n);
      Distributes(Pow2(|v|), if w[n] then Pow2(n) else 0, Number(w[..n]));
    }
  }

  /** A word cut at bit n, and the low part moved up by m bits. */
  lemma Cut(x: Word, n: nat, m: nat)
    requires n + m == 32
    ensures Number(x) / Pow2(n) == Number(x[n..])
    ensures Number(x) * Pow2(m) % Pow2(32) == Number(x[..n]) * Pow2(m)
  {
    hide Number, Pow2;
    var lo, hi := Number(x[..n]), Number(x[n..]);
    assert x == x[..n] + x[n..];
    NumberJoin(x[..n], x[n..]);
    DivModUnique(Number(x), Pow2(n), hi, lo);
    Pow2Add(n, m);
    Spread(lo, hi, Pow2(n), Pow2(m));
    MulMonotone(lo + 1, Pow2(n), Pow2(m));
    DivModUnique(Number(x) * Pow2(m), Pow2(32), hi, lo * Pow2(m));
  }

  /** A shift to the left multiplies, and drops what leaves the word. */
  lemma ShlNumber(x: Word, n: nat)
    requires n < 32
    ensures Number(Shl(x, n)) == Number(x) * Pow2(n) % Pow2(32)
  {
    hide Number, Pow2;
    NumberJoin(seq(n, _ => false), x[..32 - n]);
    NumberZeros(n);
    Cut(x, 32 - n, n);
  }

  /** A rotation to the left multiplies, and adds what leaves the word at the low end. */
  lemma RolNumber(x: Word, n: nat)
    requires n < 32
    ensures Number(Rol(x, n)) == Number(x) * Pow2(n) % Pow2(32) + Number(x) / Pow2(32 - n)
  {
    hide Number, Pow2;
    NumberJoin(x[32 - n..], x[..32 - n]);
    Cut(x, 32 - n, n);
  }

  lemma RorNumber(x: Word, n: nat)
    requires n < 32
    ensures Number(Ror(x, n)) == Number(x) / Pow2(n) + Number(x) * Pow2(32 - n) % Pow2(32)
  {
    hide Number, Pow2;
    NumberJoin(x[n..], x[..n]);
    Cut(x, n, 32 - n);
  }

  datatype Quad = Quad(a: Word, b: Word, c: Word, d: Word)

  // ------------------------------------------------------------------
  // The S-boxes of the cipher
  // ------------------------------------------------------------------

  datatype Nibble = Nibble(p: bool, q: bool, r: bool, s: bool)

  function Value(n: Nibble): (v: nat)
    ensures v < 16
  {
    (if n.p then 1 else 0) + (if n.q then 2 else 0) + (if n.r then 4 else 0) + (if n.s then 8 else 0)
  }

  function Bits(v: nat): Nibble {
    Nibble(v % 2 == 1, v / 2 % 2 == 1, v / 4 % 2 == 1, v / 8 % 2 == 1)
  }

  lemma BitsValue(n: Nibble)
    ensures Bits(Value(n)) == n
  {}

  lemma ValueBits(v: nat)
    requires v < 16
    ensures Value(Bits(v)) == v
  {}

  const BOXES: seq<seq<nat>> := [
    [3, 8, 15, 1, 10, 6, 5, 11, 14, 13, 4, 2, 7, 0, 9, 12],
    [15, 12, 2, 7, 9, 0, 5, 10, 1, 11, 14, 8, 6, 13, 3, 4],
    [8, 6, 7, 9, 3, 12, 10, 15, 13, 1, 14, 4, 0, 11, 5, 2],
    [0, 15, 11, 8, 12, 9, 6, 3, 13, 1, 2, 4, 10, 7, 5, 14],
    [1, 15, 8, 3, 12, 0, 11, 6, 2, 5, 4, 10, 9, 14, 7, 13],
    [15, 5, 2, 11, 4, 10, 9, 12, 0, 3, 14, 8, 13, 6, 7, 1],
    [7, 2, 12, 5, 8, 4, 6, 11, 14, 9, 1, 15, 13, 3, 10, 0],
    [1, 13, 15, 0, 14, 8, 2, 11, 7, 4, 12, 10, 9, 3, 5, 6]]

  const INVERSES: seq<seq<nat>> := [
    [13, 3, 11, 0, 10, 6, 5, 12, 1, 14, 4, 7, 15, 9, 8, 2],
    [5, 8, 2, 14, 15, 6, 12, 3, 11, 4, 7, 9, 1, 13, 10, 0],
    [12, 9, 15, 4, 11, 14, 1, 2, 0, 3, 6, 13, 5, 8, 10, 7],
    [0, 9, 10, 7, 11, 14, 6, 13, 3, 5, 12, 2, 4, 8, 15, 1],
    [5, 0, 8, 3, 10, 9, 7, 14, 2, 12, 11, 6, 4, 15, 13, 1],
    [8, 15, 2, 9, 4, 1, 13, 14, 11, 6, 5, 3, 7, 12, 10, 0],
    [15, 10, 1, 13, 5, 3, 6, 0, 4, 9, 14, 7, 2, 12, 8, 11],
    [3, 0, 6, 13, 9, 14, 15, 8, 5, 12, 11, 7, 10, 1, 4, 2]]

  function SBox(j: nat, n: Nibble): Nibble
    requires j < 8
  {
    Bits(BOXES[j][Value(n)])
  }

  function InvSBox(j: nat, n: Nibble): Nibble
    requires j < 8
  {
    Bits(INVERSES[j][Value(n)])
  }

  /** Bit i of each of the four words. */
  function Lane(x: Quad, i: nat): Nibble
    requires i < 32
  {
    Nibble(x.a[i], x.b[i], x.c[i], x.d[i])
  }

  lemma LanesEqual(x: Quad, y: Quad)
    requires forall i :: 0 <= i < 32 ==> Lane(x, i) == Lane(y, i)
    ensures x == y
  {
    forall i | 0 <= i < 32 ensures x.a[i] == y.a[i] && x.b[i] == y.b[i] && x.c[i] == y.c[i] && x.d[i] == y.d[i] {
      assert Lane(x, i) == Lane(y, i);
    }
  }

  /** An S-box on 32 nibbles side by side. */
  function Box(j: nat, x: Quad): Quad
    requires j < 8
  {
    Quad(seq(32, i requires 0 <= i < 32 => SBox(j, Lane(x, i)).p), seq(32, i requires 0 <= i < 32 => SBox(j, Lane(x, i)).q),
         seq(32, i requires 0 <= i < 32 => SBox(j, Lane(x, i)).r), seq(32, i requires 0 <= i < 32 => SBox(j, Lane(x, i)).s))
  }

  function InvBox(j: nat, x: Quad): Quad
    requires j < 8
  {
    Quad(seq(32, i requires 0 <= i < 32 => InvSBox(j, Lane(x, i)).p), seq(32, i requires 0 <= i < 32 => InvSBox(j, Lane(x, i)).q),
         seq(32, i requires 0 <= i < 32 => InvSBox(j, Lane(x, i)).r), seq(32, i requires 0 <= i < 32 => InvSBox(j, Lane(x, i)).s))
  }

  lemma SBoxInverts(j: nat, n: Nibble)
    requires j < 8
    ensures InvSBox(j, SBox(j, n)) == n
  {
    var v := Value(n);
    var u := BOXES[j][v];
    TableInverts(j, v);
    ValueBits(u);
    BitsValue(n);
  }

  lemma TableInverts(j: nat, v: nat)
    requires j < 8 && v < 16
    ensures BOXES[j][v] < 16 && INVERSES[j][BOXES[j][v]] == v
  {
    var b, c := BOXES[j], INVERSES[j];
    if j < 4 {
      if j == 0 {} else if j == 1 {} else if j == 2 {} else {}
    } else {
      if j == 4 {} else if j == 5 {} else if j == 6 {} else {}
    }
  }

  lemma LaneOfBox(j: nat, x: Quad, i: nat)
    requires j < 8 && i < 32
    ensures Lane(Box(j, x), i) == SBox(j, Lane(x, i)) && Lane(InvBox(j, x), i) == InvSBox(j, Lane(x, i))
  {
    hide SBox, InvSBox;
  }

  lemma BoxInverts(j: nat, x: Quad)
    requires j < 8
    ensures InvBox(j, Box(j, x)) == x
  {
    hide Box, InvBox, Lane, SBox, InvSBox;
    var y := InvBox(j, Box(j, x));
    forall i | 0 <= i < 32 ensures Lane(y, i) == Lane(x, i) {
      LaneOfBox(j, x, i);
      LaneOfBox(j, Box(j, x), i);
      SBoxInverts(j, Lane(x, i));
    }
    LanesEqual(y, x);
  }

  /** Words that agree with an S-box lane by lane are what it makes of its input. */
  lemma IsBox(j: nat, x: Quad, y: Quad)
    requires j < 8 && forall i :: 0 <= i < 32 ==> Lane(y, i) == SBox(j, Lane(x, i))
    ensures y == Box(j, x)
  {
    hide Box, SBox, Lane;
    forall i | 0 <= i < 32 ensures Lane(y, i) == Lane(Box(j, x), i) {
      LaneOfBox(j, x, i);
    }
    LanesEqual(y, Box(j, x));
  }

  lemma IsInvBox(j: nat, x: Quad, y: Quad)
    requires j < 8 && forall i :: 0 <= i < 32 ==> Lane(y, i) == InvSBox(j, Lane(x, i))
    ensures y == InvBox(j, x)
  {
    hide InvBox, InvSBox, Lane;
    forall i | 0 <= i < 32 ensures Lane(y, i) == Lane(InvBox(j, x), i) {
      LaneOfBox(j, x, i);
    }
    LanesEqual(y, InvBox(j, x));
  }

  // ------------------------------------------------------------------
  // The linear transformation and the rounds
  // ------------------------------------------------------------------

  function AddKey(x: Quad, k: Quad): Quad {
    Quad(Xor(x.a, k.a), Xor(x.b, k.b), Xor(x.c, k.c), Xor(x.d, k.d))
  }

  function Linear(x: Quad): Quad {
    var a := Rol(x.a, 13);
    var c := Rol(x.c, 3);
    var b := Rol(Xor(Xor(x.b, a), c), 1);
    var d := Rol(Xor(Xor(x.d, c), Shl(a, 3)), 7);
    Quad(Rol(Xor(Xor(a, b), d), 5), b, Rol(Xor(Xor(c, d), Shl(b, 7)), 22), d)
  }

  function InvLinear(x: Quad): Quad {
    var a := Xor(Xor(Ror(x.a, 5), x.d), x.b);
    var c := Xor(Xor(Ror(x.c, 22), x.d), Shl(x.b, 7));
    var b := Xor(Xor(Ror(x.b, 1), a), c);
    var d := Xor(Xor(Ror(x.d, 7), Shl(a, 3)), c);
    Quad(Ror(a, 13), b, Ror(c, 3), d)
  }

  function Bit(w: Word, i: int): bool { w[i % 32] }

  lemma RolBit(x: Word, n: nat, i: int)
    requires n < 32
    ensures Bit(Rol(x, n), i) == Bit(x, i - n)
  {}

  lemma ShlBit(x: Word, n: nat, i: int)
    requires n < 32
    ensures Bit(Shl(x, n), i) == (i % 32 >= n && Bit(x, i - n))
  {}

  /** An odd number of the three. */
  predicate Odd(p: bool, q: bool, r: bool) { (p != q) != r }

  lemma XorBit(x: Word, y: Word, z: Word, i: int)
    ensures Bit(Xor(Xor(x, y), z), i) == Odd(Bit(x, i), Bit(y, i), Bit(z, i))
  {}

  predicate SecondBit(x: Quad, i: int) {
    Odd(Bit(x.b, i - 1), Bit(x.a, i - 14), Bit(x.c, i - 4))
  }

  predicate FourthBit(x: Quad, i: int) {
    Odd(Bit(x.d, i - 7), Bit(x.c, i - 10), (i - 7) % 32 >= 3 && Bit(x.a, i - 23))
  }

  lemma InnerBits(x: Quad, i: int)
    ensures Bit(Linear(x).b, i) == SecondBit(x, i) && Bit(Linear(x).d, i) == FourthBit(x, i)
  {
    hide Xor, Rol, Shl, Bit, Odd;
    var a, c := Rol(x.a, 13), Rol(x.c, 3);
    RolBit(Xor(Xor(x.b, a), c), 1, i);
    XorBit(x.b, a, c, i - 1);
    RolBit(x.a, 13, i - 1);
    RolBit(x.c, 3, i - 1);
    RolBit(Xor(Xor(x.d, c), Shl(a, 3)), 7, i);
    XorBit(x.d, c, Shl(a, 3), i - 7);
    RolBit(x.c, 3, i - 7);
    ShlBit(a, 3, i - 7);
    RolBit(x.a, 13, i - 10);
  }

  /**
    The linear transformation bit by bit, as the tables of the cipher's
    definition give it: bit i of each word of the result is the sum of these
    bits of the argument, all positions being modulo 32.
  */
  lemma LinearBits(x: Quad, i: int)
    ensures Bit(Linear(x).b, i) == SecondBit(x, i) && Bit(Linear(x).d, i) == FourthBit(x, i)
    ensures Bit(Linear(x).a, i) == Odd(Bit(x.a, i - 18), SecondBit(x, i - 5), FourthBit(x, i - 5))
    ensures Bit(Linear(x).c, i) ==
            Odd(Bit(x.c, i - 25), FourthBit(x, i - 22), (i - 22) % 32 >= 7 && SecondBit(x, i - 29))
  {
    hide Xor, Rol, Shl, Bit, Odd;
    var a, b, c, d := Rol(x.a, 13), Linear(x).b, Rol(x.c, 3), Linear(x).d;
    InnerBits(x, i);
    InnerBits(x, i - 5);
    InnerBits(x, i - 22);
    InnerBits(x, i - 29);
    RolBit(Xor(Xor(a, b), d), 5, i);
    XorBit(a, b, d, i - 5);
    RolBit(x.a, 13, i - 5);
    RolBit(Xor(Xor(c, d), Shl(b, 7)), 22, i);
    XorBit(c, d, Shl(b, 7), i - 22);
    RolBit(x.c, 3, i - 22);
    ShlBit(b, 7, i - 22);
  }

  /** Three words, of which two are taken away again, in either order. */
  lemma XorBack(x: Word, y: Word, z: Word)
    ensures Xor(Xor(Xor(Xor(x, y), z), z), y) == x && Xor(Xor(Xor(Xor(x, y), z), y), z) == x
  {
    hide Xor;
    XorTwice(Xor(x, y), z);
    XorTwice(x, y);
    XorSwap(Xor(x, y), z, y);
    XorTwice(x, z);
  }

  lemma LinearInverts(x: Quad)
    ensures InvLinear(Linear(x)) == x
  {
    hide Xor, Rol, Ror, Shl;
    var a := Rol(x.a, 13);
    var c := Rol(x.c, 3);
    var b := Rol(Xor(Xor(x.b, a), c), 1);
    var d := Rol(Xor(Xor(x.d, c), Shl(a, 3)), 7);
    RorRol(Xor(Xor(a, b), d), 5);
    XorBack(a, b, d);
    RorRol(Xor(Xor(c, d), Shl(b, 7)), 22);
    XorBack(c, d, Shl(b, 7));
    RorRol(Xor(Xor(x.b, a), c), 1);
    XorBack(x.b, a, c);
    RorRol(Xor(Xor(x.d, c), Shl(a, 3)), 7);
    XorBack(x.d, c, Shl(a, 3));
    RorRol(x.a, 13);
    RorRol(x.c, 3);
  }

  lemma AddKeyTwice(x: Quad, k: Quad)
    ensures AddKey(AddKey(x, k), k) == x
  {
    hide Xor;
    XorTwice(x.a, k.a);
    XorTwice(x.b, k.b);
    XorTwice(x.c, k.c);
    XorTwice(x.d, k.d);
  }

  type Key = k: seq<Word> | |k| == 132 witness seq(132, _ => seq(32, _ => false))

  function KeyAt(k: Key, i: nat): Quad
    requires i <= 32
  {
    Quad(k[4 * i], k[4 * i + 1], k[4 * i + 2], k[4 * i + 3])
  }

  /** The state before the S-box of round i. */
  function Before(k: Key, x: Quad, i: nat): Quad
    requires i < 32
  {
    if i == 0 then AddKey(x, KeyAt(k, 0)) else AddKey(Linear(Box((i - 1) % 8, Before(k, x, i - 1))), KeyAt(k, i))
  }

  function Cipher(k: Key, x: Quad): Quad {
    AddKey(Box(7, Before(k, x, 31)), KeyAt(k, 32))
  }

  /** Decryption: the state before the inverse S-box of round i, counted down. */
  function InvBefore(k: Key, y: Quad, i: nat): Quad
    requires i < 32
    decreases 32 - i
  {
    if i == 31 then AddKey(y, KeyAt(k, 32))
    else InvLinear(AddKey(InvBox((i + 1) % 8, InvBefore(k, y, i + 1)), KeyAt(k, i + 1)))
  }

  function InvCipher(k: Key, y: Quad): Quad {
    AddKey(InvBox(0, InvBefore(k, y, 0)), KeyAt(k, 0))
  }

  lemma {:induction false} BackTo(k: Key, x: Quad, i: nat)
    requires i < 32
    ensures InvBefore(k, Cipher(k, x), i) == Box(i % 8, Before(k, x, i))
    decreases 32 - i
  {
    hide AddKey, Box, InvBox, Linear, InvLinear, KeyAt;
    if i == 31 {
      AddKeyTwice(Box(7, Before(k, x, 31)), KeyAt(k, 32));
    } else {
      BackTo(k, x, i + 1);
      var s := Before(k, x, i);
      BoxInverts((i + 1) % 8, Before(k, x, i + 1));
      AddKeyTwice(Linear(Box(i % 8, s)), KeyAt(k, i + 1));
      LinearInverts(Box(i % 8, s));
    }
  }

  /** Decryption undoes encryption, for every expanded key and every block. */
  lemma Inverts(k: Key, x: Quad)
    ensures InvCipher(k, Cipher(k, x)) == x
  {
    hide AddKey, Box, InvBox, KeyAt, InvBefore;
    BackTo(k, x, 0);
    BoxInverts(0, Before(k, x, 0));
    AddKeyTwice(x, KeyAt(k, 0));
  }
}

/** The code: macros that work on registers in place, and whose results come out under other names. */
module SerpentCode {
  import opened SerpentWords

  method S0(y0: Word, y1: Word, y2: Word, y3: Word) returns (x0: Word, x1: Word, x2: Word, x3: Word, x4: Word)
    ensures Quad(x2, x1, x3, x0) == Box(0, Quad(y0, y1, y2, y3))
  {
    hide Box, InvBox;
    x0, x1, x2, x3 := y0, y1, y2, y3;
    x4 := x3; x3 := Or(x3, x0); x0 := Xor(x0, x4); x4 := Xor(x4, x2);
    x4 := Not(x4); x3 := Xor(x3, x1); x1 := And(x1, x0); x1 := Xor(x1, x4);
    x2 := Xor(x2, x0); x0 := Xor(x0, x3); x4 := Or(x4, x0); x0 := Xor(x0, x2);
    x2 := And(x2, x1); x3 := Xor(x3, x2); x1 := Not(x1); x2 := Xor(x2, x4);
    x1 := Xor(x1, x2);
    ghost var x, y := Quad(y0, y1, y2, y3), Quad(x2, x1, x3, x0);
    forall i | 0 <= i < 32 ensures Lane(y, i) == SBox(0, Lane(x, i)) {}
    IsBox(0, x, y);
  }

  method S1(y0: Word, y1: Word, y2: Word, y3: Word) returns (x0: Word, x1: Word, x2: Word, x3: Word, x4: Word)
    ensures Quad(x4, x2, x3, x0) == Box(1, Quad(y0, y1, y2, y3))
  {
    hide Box, InvBox;
    x0, x1, x2, x3 := y0, y1, y2, y3;
    x4 := x1; x1 := Xor(x1, x0); x0 := Xor(x0, x3); x3 := Not(x3);
    x4 := And(x4, x1); x0 := Or(x0, x1); x3 := Xor(x3, x2); x0 := Xor(x0, x3);
    x1 := Xor(x1, x3); x3 := Xor(x3, x4); x1 := Or(x1, x4); x4 := Xor(x4, x2);
    x2 := And(x2, x0); x2 := Xor(x2, x1); x1 := Or(x1, x0); x0 := Not(x0);
    x0 := Xor(x0, x2); x4 := Xor(x4, x1);
    ghost var x, y := Quad(y0, y1, y2, y3), Quad(x4, x2, x3, x0);
    forall i | 0 <= i < 32 ensures Lane(y, i) == SBox(1, Lane(x, i)) {}
    IsBox(1, x, y);
  }

  method S2(y0: Word, y1: Word, y2: Word, y3: Word) returns (x0: Word, x1: Word, x2: Word, x3: Word, x4: Word)
    ensures Quad(x4, x1, x0, x3) == Box(2, Quad(y0, y1, y2, y3))
  {
    hide Box, InvBox;
    x0, x1, x2, x3 := y0, y1, y2, y3;
    x3 := Not(x3); x1 := Xor(x1, x0); x4 := x0; x0 := And(x0, x2);
    x0 := Xor(x0, x3); x3 := Or(x3, x4); x2 := Xor(x2, x1); x3 := Xor(x3, x1);
    x1 := And(x1, x0); x0 := Xor(x0, x2); x2 := And(x2, x3); x3 := Or(x3, x1);
    x0 := Not(x0); x3 := Xor(x3, x0); x4 := Xor(x4, x0); x0 := Xor(x0, x2);
    x1 := Or(x1, x2);
    ghost var x, y := Quad(y0, y1, y2, y3), Quad(x4, x1, x0, x3);
    forall i | 0 <= i < 32 ensures Lane(y, i) == SBox(2, Lane(x, i)) {}
    IsBox(2, x, y);
  }

  method S3(y0: Word, y1: Word, y2: Word, y3: Word) returns (x0: Word, x1: Word, x2: Word, x3: Word, x4: Word)
    ensures Quad(x3, x4, x1, x0) == Box(3, Quad(y0, y1, y2, y3))
  {
    hide Box, InvBox;
    x0, x1, x2, x3 := y0, y1, y2, y3;
    x4 := x1; x1 := Xor(x1, x3); x3 := Or(x3, x0); x4 := And(x4, x0);
    x0 := Xor(x0, x2); x2 := Xor(x2, x1); x1 := And(x1, x3); x2 := Xor(x2, x3);
    x0 := Or(x0, x4); x4 := Xor(x4, x3); x1 := Xor(x1, x0); x0 := And(x0, x3);
    x3 := And(x3, x4); x3 := Xor(x3, x2); x4 := Or(x4, x1); x2 := And(x2, x1);
    x4 := Xor(x4, x3); x0 := Xor(x0, x3); x3 := Xor(x3, x2);
    ghost var x, y := Quad(y0, y1, y2, y3), Quad(x3, x4, x1, x0);
    forall i | 0 <= i < 32 ensures Lane(y, i) == SBox(3, Lane(x, i)) {}
    IsBox(3, x, y);
  }

  method S4(y0: Word, y1: Word, y2: Word, y3: Word) returns (x0: Word, x1: Word, x2: Word, x3: Word, x4: Word)
    ensures Quad(x1, x2, x3, x4) == Box(4, Quad(y0, y1, y2, y3))
  {
    hide Box, InvBox;
    x0, x1, x2, x3 := y0, y1, y2, y3;
    x4 := x3; x3 := And(x3, x0); x0 := Xor(x0, x4); x3 := Xor(x3, x2);
    x2 := Or(x2, x4); x0 := Xor(x0, x1); x4 := Xor(x4, x3); x2 := Or(x2, x0);
    x2 := Xor(x2, x1); x1 := And(x1, x0); x1 := Xor(x1, x4); x4 := And(x4, x2);
    x2 := Xor(x2, x3); x4 := Xor(x4, x0); x3 := Or(x3, x1); x1 := Not(x1);
    x3 := Xor(x3, x0);
    ghost var x, y := Quad(y0, y1, y2, y3), Quad(x1, x2, x3, x4);
    forall i | 0 <= i < 32 ensures Lane(y, i) == SBox(4, Lane(x, i)) {}
    IsBox(4, x, y);
  }

  method S5(y0: Word, y1: Word, y2: Word, y3: Word) returns (x0: Word, x1: Word, x2: Word, x3: Word, x4: Word)
    ensures Quad(x4, x0, x1, x3) == Box(5, Quad(y0, y1, y2, y3))
  {
    hide Box, InvBox;
    x0, x1, x2, x3 := y0, y1, y2, y3;
    x4 := x1; x1 := Or(x1, x0); x2 := Xor(x2, x1); x3 := Not(x3);
    x4 := Xor(x4, x0); x0 := Xor(x0, x2); x1 := And(x1, x4); x4 := Or(x4, x3);
    x4 := Xor(x4, x0); x0 := And(x0, x3); x1 := Xor(x1, x3); x3 := Xor(x3, x2);
    x0 := Xor(x0, x1); x2 := And(x2, x4); x1 := Xor(x1, x2); x2 := And(x2, x0);
    x3 := Xor(x3, x2);
    ghost var x, y := Quad(y0, y1, y2, y3), Quad(x4, x0, x1, x3);
    forall i | 0 <= i < 32 ensures Lane(y, i) == SBox(5, Lane(x, i)) {}
    IsBox(5, x, y);
  }

  method S6(y0: Word, y1: Word, y2: Word, y3: Word) returns (x0: Word, x1: Word, x2: Word, x3: Word, x4: Word)
    ensures Quad(x2, x4, x1, x3) == Box(6, Quad(y0, y1, y2, y3))
  {
    hide Box, InvBox;
    x0, x1, x2, x3 := y0, y1, y2, y3;
    x4 := x1; x3 := Xor(x3, x0); x1 := Xor(x1, x2); x2 := Xor(x2, x0);
    x0 := And(x0, x3); x1 := Or(x1, x3); x4 := Not(x4); x0 := Xor(x0, x1);
    x1 := Xor(x1, x2); x3 := Xor(x3, x4); x4 := Xor(x4, x0); x2 := And(x2, x0);
    x4 := Xor(x4, x1); x2 := Xor(x2, x3); x3 := And(x3, x1); x3 := Xor(x3, x0);
    x1 := Xor(x1, x2);
    ghost var x, y := Quad(y0, y1, y2, y3), Quad(x2, x4, x1, x3);
    forall i | 0 <= i < 32 ensures Lane(y, i) == SBox(6, Lane(x, i)) {}
    IsBox(6, x, y);
  }

  method S7(y0: Word, y1: Word, y2: Word, y3: Word) returns (x0: Word, x1: Word, x2: Word, x3: Word, x4: Word)
    ensures Quad(x4, x2, x3, x0) == Box(7, Quad(y0, y1, y2, y3))
  {
    hide Box, InvBox;
    x0, x1, x2, x3 := y0, y1, y2, y3;
    x1 := Not(x1); x4 := x1; x0 := Not(x0); x1 := And(x1, x2);
    x1 := Xor(x1, x3); x3 := Or(x3, x4); x4 := Xor(x4, x2); x2 := Xor(x2, x3);
    x3 := Xor(x3, x0); x0 := Or(x0, x1); x2 := And(x2, x0); x0 := Xor(x0, x4);
    x4 := Xor(x4, x3); x3 := And(x3, x0); x4 := Xor(x4, x1); x2 := Xor(x2, x4);
    x3 := Xor(x3, x1); x4 := Or(x4, x0); x4 := Xor(x4, x1);
    ghost var x, y := Quad(y0, y1, y2, y3), Quad(x4, x2, x3, x0);
    forall i | 0 <= i < 32 ensures Lane(y, i) == SBox(7, Lane(x, i)) {}
    IsBox(7, x, y);
  }

  method SI0(y0: Word, y1: Word, y2: Word, y3: Word) returns (x0: Word, x1: Word, x2: Word, x3: Word, x4: Word)
    ensures Quad(x2, x4, x1, x0) == InvBox(0, Quad(y0, y1, y2, y3))
  {
    hide Box, InvBox;
    x0, x1, x2, x3 := y0, y1, y2, y3;
    x4 := x3; x1 := Xor(x1, x0); x3 := Or(x3, x1); x4 := Xor(x4, x1);
    x0 := Not(x0); x2 := Xor(x2, x3); x3 := Xor(x3, x0); x0 := And(x0, x1);
    x0 := Xor(x0, x2); x2 := And(x2, x3); x3 := Xor(x3, x4); x2 := Xor(x2, x3);
    x1 := Xor(x1, x3); x3 := And(x3, x0); x1 := Xor(x1, x0); x0 := Xor(x0, x2);
    x4 := Xor(x4, x3);
    ghost var x, y := Quad(y0, y1, y2, y3), Quad(x2, x4, x1, x0);
    forall i | 0 <= i < 32 ensures Lane(y, i) == InvSBox(0, Lane(x, i)) {}
    IsInvBox(0, x, y);
  }

  method SI1(y0: Word, y1: Word, y2: Word, y3: Word) returns (x0: Word, x1: Word, x2: Word, x3: Word, x4: Word)
    ensures Quad(x4, x1, x2, x3) == InvBox(1, Quad(y0, y1, y2, y3))
  {
    hide Box, InvBox;
    x0, x1, x2, x3 := y0, y1, y2, y3;
    x1 := Xor(x1, x3); x4 := x0; x0 := Xor(x0, x2); x2 := Not(x2);
    x4 := Or(x4, x1); x4 := Xor(x4, x3); x3 := And(x3, x1); x1 := Xor(x1, x2);
    x2 := And(x2, x4); x4 := Xor(x4, x1); x1 := Or(x1, x3); x3 := Xor(x3, x0);
    x2 := Xor(x2, x0); x0 := Or(x0, x4); x2 := Xor(x2, x4); x1 := Xor(x1, x0);
    x4 := Xor(x4, x1);
    ghost var x, y := Quad(y0, y1, y2, y3), Quad(x4, x1, x2, x3);
    forall i | 0 <= i < 32 ensures Lane(y, i) == InvSBox(1, Lane(x, i)) {}
    IsInvBox(1, x, y);
  }

  method SI2(y0: Word, y1: Word, y2: Word, y3: Word) returns (x0: Word, x1: Word, x2: Word, x3: Word, x4: Word)
    ensures Quad(x1, x4, x3, x2) == InvBox(2, Quad(y0, y1, y2, y3))
  {
    hide Box, InvBox;
    x0, x1, x2, x3 := y0, y1, y2, y3;
    x2 := Xor(x2, x1); x4 := x3; x3 := Not(x3); x3 := Or(x3, x2);
    x2 := Xor(x2, x4); x4 := Xor(x4, x0); x3 := Xor(x3, x1); x1 := Or(x1, x2);
    x2 := Xor(x2, x0); x1 := Xor(x1, x4); x4 := Or(x4, x3); x2 := Xor(x2, x3);
    x4 := Xor(x4, x2); x2 := And(x2, x1); x2 := Xor(x2, x3); x3 := Xor(x3, x4);
    x4 := Xor(x4, x0);
    ghost var x, y := Quad(y0, y1, y2, y3), Quad(x1, x4, x3, x2);
    forall i | 0 <= i < 32 ensures Lane(y, i) == InvSBox(2, Lane(x, i)) {}
    IsInvBox(2, x, y);
  }

  method SI3(y0: Word, y1: Word, y2: Word, y3: Word) returns (x0: Word, x1: Word, x2: Word, x3: Word, x4: Word)
    ensures Quad(x2, x0, x4, x3) == InvBox(3, Quad(y0, y1, y2, y3))
  {
    hide Box, InvBox;
    x0, x1, x2, x3 := y0, y1, y2, y3;
    x2 := Xor(x2, x1); x4 := x1; x1 := And(x1, x2); x1 := Xor(x1, x0);
    x0 := Or(x0, x4); x4 := Xor(x4, x3); x0 := Xor(x0, x3); x3 := Or(x3, x1);
    x1 := Xor(x1, x2); x1 := Xor(x1, x3); x0 := Xor(x0, x2); x2 := Xor(x2, x3);
    x3 := And(x3, x1); x1 := Xor(x1, x0); x0 := And(x0, x2); x4 := Xor(x4, x3);
    x3 := Xor(x3, x0); x0 := Xor(x0, x1);
    ghost var x, y := Quad(y0, y1, y2, y3), Quad(x2, x0, x4, x3);
    forall i | 0 <= i < 32 ensures Lane(y, i) == InvSBox(3, Lane(x, i)) {}
    IsInvBox(3, x, y);
  }

  method SI4(y0: Word, y1: Word, y2: Word, y3: Word) returns (x0: Word, x1: Word, x2: Word, x3: Word, x4: Word)
    ensures Quad(x0, x2, x4, x3) == InvBox(4, Quad(y0, y1, y2, y3))
  {
    hide Box, InvBox;
    x0, x1, x2, x3 := y0, y1, y2, y3;
    x2 := Xor(x2, x3); x4 := x0; x0 := And(x0, x1); x0 := Xor(x0, x2);
    x2 := Or(x2, x3); x4 := Not(x4); x1 := Xor(x1, x0); x0 := Xor(x0, x2);
    x2 := And(x2, x4); x2 := Xor(x2, x0); x0 := Or(x0, x4); x0 := Xor(x0, x3);
    x3 := And(x3, x2); x4 := Xor(x4, x3); x3 := Xor(x3, x1); x1 := And(x1, x0);
    x4 := Xor(x4, x1); x0 := Xor(x0, x3);
    ghost var x, y := Quad(y0, y1, y2, y3), Quad(x0, x2, x4, x3);
    forall i | 0 <= i < 32 ensures Lane(y, i) == InvSBox(4, Lane(x, i)) {}
    IsInvBox(4, x, y);
  }

  method SI5(y0: Word, y1: Word, y2: Word, y3: Word) returns (x0: Word, x1: Word, x2: Word, x3: Word, x4: Word)
    ensures Quad(x1, x4, x0, x2) == InvBox(5, Quad(y0, y1, y2, y3))
  {
    hide Box, InvBox;
    x0, x1, x2, x3 := y0, y1, y2, y3;
    x4 := x1; x1 := Or(x1, x2); x2 := Xor(x2, x4); x1 := Xor(x1, x3);
    x3 := And(x3, x4); x2 := Xor(x2, x3); x3 := Or(x3, x0); x0 := Not(x0);
    x3 := Xor(x3, x2); x2 := Or(x2, x0); x4 := Xor(x4, x1); x2 := Xor(x2, x4);
    x4 := And(x4, x0); x0 := Xor(x0, x1); x1 := Xor(x1, x3); x0 := And(x0, x2);
    x2 := Xor(x2, x3); x0 := Xor(x0, x2); x2 := Xor(x2, x4); x4 := Xor(x4, x3);
    ghost var x, y := Quad(y0, y1, y2, y3), Quad(x1, x4, x0, x2);
    forall i | 0 <= i < 32 ensures Lane(y, i) == InvSBox(5, Lane(x, i)) {}
    IsInvBox(5, x, y);
  }

  method SI6(y0: Word, y1: Word, y2: Word, y3: Word) returns (x0: Word, x1: Word, x2: Word, x3: Word, x4: Word)
    ensures Quad(x2, x4, x3, x0) == InvBox(6, Quad(y0, y1, y2, y3))
  {
    hide Box, InvBox;
    x0, x1, x2, x3 := y0, y1, y2, y3;
    x0 := Xor(x0, x2); x4 := x0; x0 := And(x0, x3); x2 := Xor(x2, x3);
    x0 := Xor(x0, x2); x3 := Xor(x3, x1); x2 := Or(x2, x4); x2 := Xor(x2, x3);
    x3 := And(x3, x0); x0 := Not(x0); x3 := Xor(x3, x1); x1 := And(x1, x2);
    x4 := Xor(x4, x0); x3 := Xor(x3, x4); x4 := Xor(x4, x2); x0 := Xor(x0, x1);
    x2 := Xor(x2, x0);
    ghost var x, y := Quad(y0, y1, y2, y3), Quad(x2, x4, x3, x0);
    forall i | 0 <= i < 32 ensures Lane(y, i) == InvSBox(6, Lane(x, i)) {}
    IsInvBox(6, x, y);
  }

  method SI7(y0: Word, y1: Word, y2: Word, y3: Word) returns (x0: Word, x1: Word, x2: Word, x3: Word, x4: Word)
    ensures Quad(x1, x3, x0, x4) == InvBox(7, Quad(y0, y1, y2, y3))
  {
    hide Box, InvBox;
    x0, x1, x2, x3 := y0, y1, y2, y3;
    x4 := x3; x3 := And(x3, x0); x0 := Xor(x0, x2); x2 := Or(x2, x4);
    x4 := Xor(x4, x1); x0 := Not(x0); x1 := Or(x1, x3); x4 := Xor(x4, x0);
    x0 := And(x0, x2); x0 := Xor(x0, x1); x1 := And(x1, x2); x3 := Xor(x3, x2);
    x4 := Xor(x4, x3); x2 := And(x2, x3); x3 := Or(x3, x0); x1 := Xor(x1, x4);
    x3 := Xor(x3, x4); x4 := And(x4, x0); x4 := Xor(x4, x2);
    ghost var x, y := Quad(y0, y1, y2, y3), Quad(x1, x3, x0, x4);
    forall i | 0 <= i < 32 ensures Lane(y, i) == InvSBox(7, Lane(x, i)) {}
    IsInvBox(7, x, y);
  }

  /** LK: the linear transformation and the key of round i */
  method LK(k: Key, y0: Word, y1: Word, y2: Word, y3: Word, i: nat, ghost x: Quad)
    returns (x0: Word, x1: Word, x2: Word, x3: Word, x4: Word)
    requires 1 <= i < 32 && Quad(y0, y1, y2, y3) == Box((i - 1) % 8, Before(k, x, i - 1))
    ensures Quad(x0, x1, x2, x3) == Before(k, x, i)
  {
    hide Box, Xor, Rol, Shl;
    x0, x1, x2, x3 := y0, y1, y2, y3;
    x0 := Rol(x0, 13);
    x2 := Rol(x2, 3); x1 := Xor(x1, x0); x4 := Shl(x0, 3);
    x3 := Xor(x3, x2); x1 := Xor(x1, x2);
    x1 := Rol(x1, 1); x3 := Xor(x3, x4);
    x3 := Rol(x3, 7); x4 := x1;
    x0 := Xor(x0, x1); x4 := Shl(x4, 7); x2 := Xor(x2, x3);
    x0 := Xor(x0, x3); x2 := Xor(x2, x4); x3 := Xor(x3, k[4 * i + 3]);
    x1 := Xor(x1, k[4 * i + 1]); x0 := Rol(x0, 5); x2 := Rol(x2, 22);
    x0 := Xor(x0, k[4 * i]); x2 := Xor(x2, k[4 * i + 2]);
  }

  /** KL: the way back */
  method KL(k: Key, y0: Word, y1: Word, y2: Word, y3: Word, i: nat, ghost y: Quad)
    returns (x0: Word, x1: Word, x2: Word, x3: Word, x4: Word)
    requires 1 <= i < 32 && Quad(y0, y1, y2, y3) == InvBox(i % 8, InvBefore(k, y, i))
    ensures Quad(x0, x1, x2, x3) == InvBefore(k, y, i - 1)
  {
    hide InvBox, Xor, Ror, Shl;
    x0, x1, x2, x3 := y0, y1, y2, y3;
    x0 := Xor(x0, k[4 * i]); x1 := Xor(x1, k[4 * i + 1]); x2 := Xor(x2, k[4 * i + 2]);
    x3 := Xor(x3, k[4 * i + 3]); x0 := Ror(x0, 5); x2 := Ror(x2, 22);
    x4 := x1; x2 := Xor(x2, x3); x0 := Xor(x0, x3);
    x4 := Shl(x4, 7); x0 := Xor(x0, x1); x1 := Ror(x1, 1);
    x2 := Xor(x2, x4); x3 := Ror(x3, 7); x4 := Shl(x0, 3);
    x1 := Xor(x1, x0); x3 := Xor(x3, x4); x0 := Ror(x0, 13);
    x1 := Xor(x1, x2); x3 := Xor(x3, x2); x2 := Ror(x2, 3);
  }

  /** K */
  method MixKey(k: Key, y0: Word, y1: Word, y2: Word, y3: Word, i: nat) returns (x0: Word, x1: Word, x2: Word, x3: Word)
    requires i <= 32
    ensures Quad(x0, x1, x2, x3) == AddKey(Quad(y0, y1, y2, y3), KeyAt(k, i))
  {
    x3 := Xor(y3, k[4 * i + 3]);
    x2 := Xor(y2, k[4 * i + 2]);
    x1 := Xor(y1, k[4 * i + 1]);
    x0 := Xor(y0, k[4 * i]);
  }

  method Encrypt0(k: Key, s0: Word, s1: Word, s2: Word, s3: Word, s4: Word, ghost x: Quad)
    returns (r0: Word, r1: Word, r2: Word, r3: Word, r4: Word)
    requires Quad(s0, s1, s2, s3) == Before(k, x, 0)
    ensures Quad(r2, r0, r4, r3) == Before(k, x, 8)
  {
    hide Box, Before, AddKey, KeyAt;
    r0, r1, r2, r3, r4 := s0, s1, s2, s3, s4;
    r0, r1, r2, r3, r4 := S0(r0, r1, r2, r3);
    r2, r1, r3, r0, r4 := LK(k, r2, r1, r3, r0, 1, x);
    r2, r1, r3, r0, r4 := S1(r2, r1, r3, r0);
    r4, r3, r0, r2, r1 := LK(k, r4, r3, r0, r2, 2, x);
    r4, r3, r0, r2, r1 := S2(r4, r3, r0, r2);
    r1, r3, r4, r2, r0 := LK(k, r1, r3, r4, r2, 3, x);
    r1, r3, r4, r2, r0 := S3(r1, r3, r4, r2);
    r2, r0, r3, r1, r4 := LK(k, r2, r0, r3, r1, 4, x);
    r2, r0, r3, r1, r4 := S4(r2, r0, r3, r1);
    r0, r3, r1, r4, r2 := LK(k, r0, r3, r1, r4, 5, x);
    r0, r3, r1, r4, r2 := S5(r0, r3, r1, r4);
    r2, r0, r3, r4, r1 := LK(k, r2, r0, r3, r4, 6, x);
    r2, r0, r3, r4, r1 := S6(r2, r0, r3, r4);
    r3, r1, r0, r4, r2 := LK(k, r3, r1, r0, r4, 7, x);
    r3, r1, r0, r4, r2 := S7(r3, r1, r0, r4);
    r2, r0, r4, r3, r1 := LK(k, r2, r0, r4, r3, 8, x);
  }

  method Encrypt8(k: Key, s0: Word, s1: Word, s2: Word, s3: Word, s4: Word, ghost x: Quad)
    returns (r0: Word, r1: Word, r2: Word, r3: Word, r4: Word)
    requires Quad(s2, s0, s4, s3) == Before(k, x, 8)
    ensures Quad(r4, r2, r1, r3) == Before(k, x, 16)
  {
    hide Box, Before, AddKey, KeyAt;
    r0, r1, r2, r3, r4 := s0, s1, s2, s3, s4;
    r2, r0, r4, r3, r1 := S0(r2, r0, r4, r3);
    r4, r0, r3, r2, r1 := LK(k, r4, r0, r3, r2, 9, x);
    r4, r0, r3, r2, r1 := S1(r4, r0, r3, r2);
    r1, r3, r2, r4, r0 := LK(k, r1, r3, r2, r4, 10, x);
    r1, r3, r2, r4, r0 := S2(r1, r3, r2, r4);
    r0, r3, r1, r4, r2 := LK(k, r0, r3, r1, r4, 11, x);
    r0, r3, r1, r4, r2 := S3(r0, r3, r1, r4);
    r4, r2, r3, r0, r1 := LK(k, r4, r2, r3, r0, 12, x);
    r4, r2, r3, r0, r1 := S4(r4, r2, r3, r0);
    r2, r3, r0, r1, r4 := LK(k, r2, r3, r0, r1, 13, x);
    r2, r3, r0, r1, r4 := S5(r2, r3, r0, r1);
    r4, r2, r3, r1, r0 := LK(k, r4, r2, r3, r1, 14, x);
    r4, r2, r3, r1, r0 := S6(r4, r2, r3, r1);
    r3, r0, r2, r1, r4 := LK(k, r3, r0, r2, r1, 15, x);
    r3, r0, r2, r1, r4 := S7(r3, r0, r2, r1);
    r4, r2, r1, r3, r0 := LK(k, r4, r2, r1, r3, 16, x);
  }

  method Encrypt16(k: Key, s0: Word, s1: Word, s2: Word, s3: Word, s4: Word, ghost x: Quad)
    returns (r0: Word, r1: Word, r2: Word, r3: Word, r4: Word)
    requires Quad(s4, s2, s1, s3) == Before(k, x, 16)
    ensures Quad(r1, r4, r0, r3) == Before(k, x, 24)
  {
    hide Box, Before, AddKey, KeyAt;
    r0, r1, r2, r3, r4 := s0, s1, s2, s3, s4;
    r4, r2, r1, r3, r0 := S0(r4, r2, r1, r3);
    r1, r2, r3, r4, r0 := LK(k, r1, r2, r3, r4, 17, x);
    r1, r2, r3, r4, r0 := S1(r1, r2, r3, r4);
    r0, r3, r4, r1, r2 := LK(k, r0, r3, r4, r1, 18, x);
    r0, r3, r4, r1, r2 := S2(r0, r3, r4, r1);
    r2, r3, r0, r1, r4 := LK(k, r2, r3, r0, r1, 19, x);
    r2, r3, r0, r1, r4 := S3(r2, r3, r0, r1);
    r1, r4, r3, r2, r0 := LK(k, r1, r4, r3, r2, 20, x);
    r1, r4, r3, r2, r0 := S4(r1, r4, r3, r2);
    r4, r3, r2, r0, r1 := LK(k, r4, r3, r2, r0, 21, x);
    r4, r3, r2, r0, r1 := S5(r4, r3, r2, r0);
    r1, r4, r3, r0, r2 := LK(k, r1, r4, r3, r0, 22, x);
    r1, r4, r3, r0, r2 := S6(r1, r4, r3, r0);
    r3, r2, r4, r0, r1 := LK(k, r3, r2, r4, r0, 23, x);
    r3, r2, r4, r0, r1 := S7(r3, r2, r4, r0);
    r1, r4, r0, r3, r2 := LK(k, r1, r4, r0, r3, 24, x);
  }

  method Encrypt24(k: Key, s0: Word, s1: Word, s2: Word, s3: Word, s4: Word, ghost x: Quad)
    returns (r0: Word, r1: Word, r2: Word, r3: Word, r4: Word)
    requires Quad(s1, s4, s0, s3) == Before(k, x, 24)
    ensures Quad(r0, r1, r2, r3) == Cipher(k, x)
  {
    hide Box, Before, AddKey, KeyAt;
    r0, r1, r2, r3, r4 := s0, s1, s2, s3, s4;
    r1, r4, r0, r3, r2 := S0(r1, r4, r0, r3);
    r0, r4, r3, r1, r2 := LK(k, r0, r4, r3, r1, 25, x);
    r0, r4, r3, r1, r2 := S1(r0, r4, r3, r1);
    r2, r3, r1, r0, r4 := LK(k, r2, r3, r1, r0, 26, x);
    r2, r3, r1, r0, r4 := S2(r2, r3, r1, r0);
    r4, r3, r2, r0, r1 := LK(k, r4, r3, r2, r0, 27, x);
    r4, r3, r2, r0, r1 := S3(r4, r3, r2, r0);
    r0, r1, r3, r4, r2 := LK(k, r0, r1, r3, r4, 28, x);
    r0, r1, r3, r4, r2 := S4(r0, r1, r3, r4);
    r1, r3, r4, r2, r0 := LK(k, r1, r3, r4, r2, 29, x);
    r1, r3, r4, r2, r0 := S5(r1, r3, r4, r2);
    r0, r1, r3, r2, r4 := LK(k, r0, r1, r3, r2, 30, x);
    r0, r1, r3, r2, r4 := S6(r0, r1, r3, r2);
    r3, r4, r1, r2, r0 := LK(k, r3, r4, r1, r2, 31, x);
    r3, r4, r1, r2, r0 := S7(r3, r4, r1, r2);
    r0, r1, r2, r3 := MixKey(k, r0, r1, r2, r3, 32);
  }

  /** encrypt, register by register, in four times eight rounds */
  method Encrypt(k: Key, x: Quad) returns (out: Quad)
    ensures out == Cipher(k, x)
  {
    hide Box, Before, AddKey, KeyAt, Cipher;
    EncryptStarts(k, x);
    var r0, r1, r2, r3 := MixKey(k, x.a, x.b, x.c, x.d, 0);
    var r4;
    r0, r1, r2, r3, r4 := Encrypt0(k, r0, r1, r2, r3, r0, x);
    r0, r1, r2, r3, r4 := Encrypt8(k, r0, r1, r2, r3, r4, x);
    r0, r1, r2, r3, r4 := Encrypt16(k, r0, r1, r2, r3, r4, x);
    r0, r1, r2, r3, r4 := Encrypt24(k, r0, r1, r2, r3, r4, x);
    out := Quad(r0, r1, r2, r3);
  }

  method Decrypt0(k: Key, s0: Word, s1: Word, s2: Word, s3: Word, s4: Word, ghost y: Quad)
    returns (r0: Word, r1: Word, r2: Word, r3: Word, r4: Word)
    requires Quad(s0, s1, s2, s3) == InvBefore(k, y, 31)
    ensures Quad(r4, r2, r0, r1) == InvBefore(k, y, 23)
  {
    hide InvBox, InvBefore, AddKey, KeyAt;
    r0, r1, r2, r3, r4 := s0, s1, s2, s3, s4;
    r0, r1, r2, r3, r4 := SI7(r0, r1, r2, r3);
    r1, r3, r0, r4, r2 := KL(k, r1, r3, r0, r4, 31, y);
    r1, r3, r0, r4, r2 := SI6(r1, r3, r0, r4);
    r0, r2, r4, r1, r3 := KL(k, r0, r2, r4, r1, 30, y);
    r0, r2, r4, r1, r3 := SI5(r0, r2, r4, r1);
    r2, r3, r0, r4, r1 := KL(k, r2, r3, r0, r4, 29, y);
    r2, r3, r0, r4, r1 := SI4(r2, r3, r0, r4);
    r2, r0, r1, r4, r3 := KL(k, r2, r0, r1, r4, 28, y);
    r2, r0, r1, r4, r3 := SI3(r2, r0, r1, r4);
    r1, r2, r3, r4, r0 := KL(k, r1, r2, r3, r4, 27, y);
    r1, r2, r3, r4, r0 := SI2(r1, r2, r3, r4);
    r2, r0, r4, r3, r1 := KL(k, r2, r0, r4, r3, 26, y);
    r2, r0, r4, r3, r1 := SI1(r2, r0, r4, r3);
    r1, r0, r4, r3, r2 := KL(k, r1, r0, r4, r3, 25, y);
    r1, r0, r4, r3, r2 := SI0(r1, r0, r4, r3);
    r4, r2, r0, r1, r3 := KL(k, r4, r2, r0, r1, 24, y);
  }

  method Decrypt8(k: Key, s0: Word, s1: Word, s2: Word, s3: Word, s4: Word, ghost y: Quad)
    returns (r0: Word, r1: Word, r2: Word, r3: Word, r4: Word)
    requires Quad(s4, s2, s0, s1) == InvBefore(k, y, 23)
    ensures Quad(r3, r0, r4, r2) == InvBefore(k, y, 15)
  {
    hide InvBox, InvBefore, AddKey, KeyAt;
    r0, r1, r2, r3, r4 := s0, s1, s2, s3, s4;
    r4, r2, r0, r1, r3 := SI7(r4, r2, r0, r1);
    r2, r1, r4, r3, r0 := KL(k, r2, r1, r4, r3, 23, y);
    r2, r1, r4, r3, r0 := SI6(r2, r1, r4, r3);
    r4, r0, r3, r2, r1 := KL(k, r4, r0, r3, r2, 22, y);
    r4, r0, r3, r2, r1 := SI5(r4, r0, r3, r2);
    r0, r1, r4, r3, r2 := KL(k, r0, r1, r4, r3, 21, y);
    r0, r1, r4, r3, r2 := SI4(r0, r1, r4, r3);
    r0, r4, r2, r3, r1 := KL(k, r0, r4, r2, r3, 20, y);
    r0, r4, r2, r3, r1 := SI3(r0, r4, r2, r3);
    r2, r0, r1, r3, r4 := KL(k, r2, r0, r1, r3, 19, y);
    r2, r0, r1, r3, r4 := SI2(r2, r0, r1, r3);
    r0, r4, r3, r1, r2 := KL(k, r0, r4, r3, r1, 18, y);
    r0, r4, r3, r1, r2 := SI1(r0, r4, r3, r1);
    r2, r4, r3, r1, r0 := KL(k, r2, r4, r3, r1, 17, y);
    r2, r4, r3, r1, r0 := SI0(r2, r4, r3, r1);
    r3, r0, r4, r2, r1 := KL(k, r3, r0, r4, r2, 16, y);
  }

  method Decrypt16(k: Key, s0: Word, s1: Word, s2: Word, s3: Word, s4: Word, ghost y: Quad)
    returns (r0: Word, r1: Word, r2: Word, r3: Word, r4: Word)
    requires Quad(s3, s0, s4, s2) == InvBefore(k, y, 15)
    ensures Quad(r1, r4, r3, r0) == InvBefore(k, y, 7)
  {
    hide InvBox, InvBefore, AddKey, KeyAt;
    r0, r1, r2, r3, r4 := s0, s1, s2, s3, s4;
    r3, r0, r4, r2, r1 := SI7(r3, r0, r4, r2);
    r0, r2, r3, r1, r4 := KL(k, r0, r2, r3, r1, 15, y);
    r0, r2, r3, r1, r4 := SI6(r0, r2, r3, r1);
    r3, r4, r1, r0, r2 := KL(k, r3, r4, r1, r0, 14, y);
    r3, r4, r1, r0, r2 := SI5(r3, r4, r1, r0);
    r4, r2, r3, r1, r0 := KL(k, r4, r2, r3, r1, 13, y);
    r4, r2, r3, r1, r0 := SI4(r4, r2, r3, r1);
    r4, r3, r0, r1, r2 := KL(k, r4, r3, r0, r1, 12, y);
    r4, r3, r0, r1, r2 := SI3(r4, r3, r0, r1);
    r0, r4, r2, r1, r3 := KL(k, r0, r4, r2, r1, 11, y);
    r0, r4, r2, r1, r3 := SI2(r0, r4, r2, r1);
    r4, r3, r1, r2, r0 := KL(k, r4, r3, r1, r2, 10, y);
    r4, r3, r1, r2, r0 := SI1(r4, r3, r1, r2);
    r0, r3, r1, r2, r4 := KL(k, r0, r3, r1, r2, 9, y);
    r0, r3, r1, r2, r4 := SI0(r0, r3, r1, r2);
    r1, r4, r3, r0, r2 := KL(k, r1, r4, r3, r0, 8, y);
  }

  method Decrypt24(k: Key, s0: Word, s1: Word, s2: Word, s3: Word, s4: Word, ghost y: Quad)
    returns (r0: Word, r1: Word, r2: Word, r3: Word, r4: Word)
    requires Quad(s1, s4, s3, s0) == InvBefore(k, y, 7)
    ensures Quad(r2, r3, r1, r4) == InvCipher(k, y)
  {
    hide InvBox, InvBefore, AddKey, KeyAt;
    r0, r1, r2, r3, r4 := s0, s1, s2, s3, s4;
    r1, r4, r3, r0, r2 := SI7(r1, r4, r3, r0);
    r4, r0, r1, r2, r3 := KL(k, r4, r0, r1, r2, 7, y);
    r4, r0, r1, r2, r3 := SI6(r4, r0, r1, r2);
    r1, r3, r2, r4, r0 := KL(k, r1, r3, r2, r4, 6, y);
    r1, r3, r2, r4, r0 := SI5(r1, r3, r2, r4);
    r3, r0, r1, r2, r4 := KL(k, r3, r0, r1, r2, 5, y);
    r3, r0, r1, r2, r4 := SI4(r3, r0, r1, r2);
    r3, r1, r4, r2, r0 := KL(k, r3, r1, r4, r2, 4, y);
    r3, r1, r4, r2, r0 := SI3(r3, r1, r4, r2);
    r4, r3, r0, r2, r1 := KL(k, r4, r3, r0, r2, 3, y);
    r4, r3, r0, r2, r1 := SI2(r4, r3, r0, r2);
    r3, r1, r2, r0, r4 := KL(k, r3, r1, r2, r0, 2, y);
    r3, r1, r2, r0, r4 := SI1(r3, r1, r2, r0);
    r4, r1, r2, r0, r3 := KL(k, r4, r1, r2, r0, 1, y);
    r4, r1, r2, r0, r3 := SI0(r4, r1, r2, r0);
    r2, r3, r1, r4 := MixKey(k, r2, r3, r1, r4, 0);
  }

  /** decrypt */
  method Decrypt(k: Key, y: Quad) returns (out: Quad)
    ensures out == InvCipher(k, y)
  {
    hide InvBox, InvBefore, AddKey, KeyAt, InvCipher;
    DecryptStarts(k, y);
    var r0, r1, r2, r3 := MixKey(k, y.a, y.b, y.c, y.d, 32);
    var r4;
    r0, r1, r2, r3, r4 := Decrypt0(k, r0, r1, r2, r3, r0, y);
    r0, r1, r2, r3, r4 := Decrypt8(k, r0, r1, r2, r3, r4, y);
    r0, r1, r2, r3, r4 := Decrypt16(k, r0, r1, r2, r3, r4, y);
    r0, r1, r2, r3, r4 := Decrypt24(k, r0, r1, r2, r3, r4, y);
    out := Quad(r2, r3, r1, r4);
  }

  lemma EncryptStarts(k: Key, x: Quad)
    ensures AddKey(x, KeyAt(k, 0)) == Before(k, x, 0)
  {
    hide AddKey, KeyAt;
  }

  lemma DecryptStarts(k: Key, y: Quad)
    ensures AddKey(y, KeyAt(k, 32)) == InvBefore(k, y, 31)
  {
    hide AddKey, KeyAt;
  }
}
