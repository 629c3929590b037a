/** XTEA as tea.c has it: loops that run until a sum of deltas comes round to its limit. */
module Xtea {
  import opened Common

  const DELTA: nat := 0x9e3779b9
  const TWO32: nat := 0x1_0000_0000
  const ROUNDS: nat := 32

  type U32 = x: nat | x < 0x1_0000_0000

  datatype Pair = Pair(y: U32, z: U32)
  datatype Key = Key(k0: U32, k1: U32, k2: U32, k3: U32)

  function Pick(k: Key, i: nat): U32 {
    if i == 0 then k.k0 else if i == 1 then k.k1 else if i == 2 then k.k2 else k.k3
  }

  function Word(x: U32): bv32 {
    x as bv32
  }

  function Number(w: bv32): (x: U32) {
    w as nat
  }

  function Add(a: U32, b: U32): U32 {
    (a + b) % TWO32
  }

  function Sub(a: U32, b: U32): U32 {
    (a + TWO32 - b) % TWO32
  }

  lemma SubAdd(a: U32, b: U32)
    ensures Sub(Add(a, b), b) == a
  {}

  /** What is added to one half, from the other half, the sum and a word of the key. */
  function Term(v: U32, sum: U32, key: U32): U32 {
    Add(Add(Number((Word(v) << 4) ^ (Word(v) >> 5)), Number(Word(v) ^ Word(sum))), key)
  }

  // ------------------------------------------------------------------
  // How often the loops run
  // ------------------------------------------------------------------

  /** The sum after n rounds. */
  function Sum(n: nat): U32 {
    n * DELTA % TWO32
  }

  /** A product with an odd number is a multiple of a power of two only if the other factor is. */
  lemma {:induction false} OddFactor(m: nat, d: nat, k: nat)
    requires d % 2 == 1 && m * d % Pow2(k) == 0
    ensures m % Pow2(k) == 0
  {
    if k > 0 {
      var p := Pow2(k - 1);
      var q := m * d / Pow2(k);
      assert m * d == q * (2 * p);
      EvenFactor(m, d, q * p);
      var h := m / 2;
      assert m == 2 * h;
      assert h * d == q * p by { assert 2 * (h * d) == 2 * (q * p); }
      DivModUnique(h * d, p, q, 0);
      OddFactor(h, d, k - 1);
      assert h == h / p * p;
      DivModUnique(m, 2 * p, h / p, 0);
    }
  }

  lemma EvenFactor(m: nat, d: nat, r: nat)
    requires d % 2 == 1 && m * d == 2 * r
    ensures m % 2 == 0
  {
    var c := d / 2;
    assert d == 2 * c + 1;
    assert m * d == 2 * (m * c) + m;
    assert m == 2 * (r - m * c);
  }

  lemma TwoTo32()
    ensures Pow2(32) == TWO32
  {
    assert Pow2(8) == 256 by {
      assert Pow2(4) == 16;
    }
    Pow2Add(8, 8);
    Pow2Add(16, 16);
  }

  /** Because delta is odd, the sums of up to 2^32 - 1 rounds are all different. */
  lemma SumsDiffer(i: nat, j: nat)
    requires i < j < i + TWO32
    ensures Sum(i) != Sum(j)
  {
    if Sum(i) == Sum(j) {
      var m := j - i;
      var a, b := i * DELTA / TWO32, j * DELTA / TWO32;
      assert m * DELTA == (b - a) * TWO32;
      if b < a {
        MulMonotone(b - a, 0, TWO32);
      }
      DivModUnique(m * DELTA, TWO32, b - a, 0);
      TwoTo32();
      OddFactor(m, DELTA, 32);
      DivModUnique(m, TWO32, 0, m);
    }
  }

  lemma SumNext(n: nat)
    ensures Add(Sum(n), DELTA) == Sum(n + 1) && Sub(Sum(n + 1), DELTA) == Sum(n)
  {
    SubAdd(Sum(n), DELTA);
    var q := n * DELTA / TWO32;
    assert n * DELTA == q * TWO32 + Sum(n);
    var x := Sum(n) + DELTA;
    assert (n + 1) * DELTA == (q + x / TWO32) * TWO32 + x % TWO32;
    DivModUnique((n + 1) * DELTA, TWO32, q + x / TWO32, x % TWO32);
  }

  // ------------------------------------------------------------------
  // Rounds
  // ------------------------------------------------------------------

  function Round(k: Key, p: Pair, n: nat): Pair {
    var y := Add(p.y, Term(p.z, Sum(n), Pick(k, Sum(n) % 4)));
    Pair(y, Add(p.z, Term(y, Sum(n + 1), Pick(k, Sum(n + 1) / 2048 % 4))))
  }

  function InvRound(k: Key, p: Pair, n: nat): Pair {
    var z := Sub(p.z, Term(p.y, Sum(n + 1), Pick(k, Sum(n + 1) / 2048 % 4)));
    Pair(Sub(p.y, Term(z, Sum(n), Pick(k, Sum(n) % 4))), z)
  }

  lemma RoundInverts(k: Key, p: Pair, n: nat)
    ensures InvRound(k, Round(k, p, n), n) == p
  {
    hide Add, Sub, Term, Pick, Sum;
    var a := Term(p.z, Sum(n), Pick(k, Sum(n) % 4));
    var y := Add(p.y, a);
    SubAdd(p.z, Term(y, Sum(n + 1), Pick(k, Sum(n + 1) / 2048 % 4)));
    SubAdd(p.y, a);
  }

  function Forward(k: Key, p: Pair, n: nat): Pair {
    if n == 0 then p else Round(k, Forward(k, p, n - 1), n - 1)
  }

  /** n rounds back, from the state after n rounds. */
  function Back(k: Key, p: Pair, n: nat): Pair
    decreases n
  {
    if n == 0 then p else Back(k, InvRound(k, p, n - 1), n - 1)
  }

  lemma {:induction false} BackForward(k: Key, p: Pair, n: nat)
    ensures Back(k, Forward(k, p, n), n) == p
  {
    hide Round, InvRound;
    if n > 0 {
      RoundInverts(k, Forward(k, p, n - 1), n - 1);
      BackForward(k, p, n - 1);
    }
  }

  /** xtea_encrypt: the loop ends, and has then run 32 times. */
  method Encrypt(k: Key, p: Pair) returns (r: Pair, ghost rounds: nat)
    ensures rounds == ROUNDS && r == Forward(k, p, ROUNDS)
  {
    hide Sum, Term, Pick, Add, Forward;
    var y, z, sum: U32 := p.y, p.z, 0;
    var limit := Sum(ROUNDS);
    rounds := 0;
    ForwardStarts(k, p);
    while sum != limit
      invariant rounds <= ROUNDS && sum == Sum(rounds) && Pair(y, z) == Forward(k, p, rounds)
      decreases ROUNDS - rounds
    {
      SumNext(rounds);
      ForwardNext(k, p, rounds);
      y := Add(y, Term(z, sum, Pick(k, sum % 4)));
      sum := Add(sum, DELTA);
      z := Add(z, Term(y, sum, Pick(k, sum / 2048 % 4)));
      rounds := rounds + 1;
    }
    if rounds < ROUNDS {
      SumsDiffer(rounds, ROUNDS);
    }
    r := Pair(y, z);
  }

  /** xtea_decrypt */
  method Decrypt(k: Key, p: Pair) returns (r: Pair, ghost rounds: nat)
    ensures rounds == ROUNDS && r == Back(k, p, ROUNDS)
  {
    hide Sum, Term, Pick, Sub, Back;
    var y, z, sum: U32 := p.y, p.z, Sum(ROUNDS);
    rounds := 0;
    ForwardStarts(k, p);
    while sum != 0
      invariant rounds <= ROUNDS && sum == Sum(ROUNDS - rounds)
      invariant Back(k, p, ROUNDS) == Back(k, Pair(y, z), ROUNDS - rounds)
      decreases ROUNDS - rounds
    {
      if rounds == ROUNDS {
        assert false;
      }
      ghost var n := ROUNDS - rounds - 1;
      SumNext(n);
      BackNext(k, Pair(y, z), n);
      z := Sub(z, Term(y, sum, Pick(k, sum / 2048 % 4)));
      sum := Sub(sum, DELTA);
      y := Sub(y, Term(z, sum, Pick(k, sum % 4)));
      rounds := rounds + 1;
    }
    if rounds < ROUNDS {
      SumsDiffer(0, ROUNDS - rounds);
    }
    BackEnds(k, Pair(y, z));
    r := Pair(y, z);
  }

  lemma ForwardStarts(k: Key, p: Pair)
    ensures Forward(k, p, 0) == p && Sum(0) == 0
  {}

  lemma ForwardNext(k: Key, p: Pair, n: nat)
    ensures Forward(k, p, n + 1) == Round(k, Forward(k, p, n), n)
  {}

  lemma BackNext(k: Key, p: Pair, n: nat)
    ensures Back(k, p, n + 1) == Back(k, InvRound(k, p, n), n)
  {}

  lemma BackEnds(k: Key, p: Pair)
    ensures Back(k, p, 0) == p
  {}

  /** Decryption restores every block under every key. */
  lemma Inverts(k: Key, p: Pair)
    ensures Back(k, Forward(k, p, ROUNDS), ROUNDS) == p
  {
    BackForward(k, p, ROUNDS);
  }
}
