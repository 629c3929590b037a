/** The constants of SHA-1 and SHA-512 as roots of small numbers: sections 4.2.3 and 5.3.4 of FIPS 180-2. */
module DigestConstants {
  import opened Sha1Transform
  import S = Sha512Transform
  import Sha512
  import Sha512Example

  const TWO60: nat := 0x1000_0000_0000_0000
  const TWO64: nat := 0x1_0000_0000_0000_0000
  const TWO128: nat := 0x1_0000_0000_0000_0000_0000_0000_0000_0000
  const TWO192: nat := 0x1_0000_0000_0000_0000_0000_0000_0000_0000_0000_0000_0000_0000

  /** The cube root of p is `whole` and a fraction, of which k is the first 64 bits. */
  predicate CubeRoot(k: bv64, whole: nat, p: nat) {
    var c := whole * TWO64 + k as nat;
    c * c * c <= p * TWO192 < (c + 1) * (c + 1) * (c + 1)
  }

  predicate SquareRoot(k: bv64, whole: nat, p: nat) {
    var c := whole * TWO64 + k as nat;
    c * c <= p * TWO128 < (c + 1) * (c + 1)
  }

  /** k is 2^30 times the square root of n, rounded down. */
  predicate Root30(k: bv32, n: nat) {
    (k as nat) * (k as nat) <= n * TWO60 < (k as nat + 1) * (k as nat + 1)
  }

  lemma Sha1Constants(t: nat)
    ensures Root30(K(t), if t < 20 then 2 else if t < 40 then 3 else if t < 60 then 5 else 10)
  {
    assert Root30(0x5a827999, 2) && Root30(0x6ed9eba1, 3) && Root30(0x8f1bbcdc, 5) && Root30(0xca62c1d6, 10);
  }

  lemma CubeRoots0()
    ensures CubeRoot(S.K(0), 1, 2) && CubeRoot(S.K(1), 1, 3) && CubeRoot(S.K(2), 1, 5) && CubeRoot(S.K(3), 1, 7)
    ensures CubeRoot(S.K(4), 2, 11) && CubeRoot(S.K(5), 2, 13) && CubeRoot(S.K(6), 2, 17) && CubeRoot(S.K(7), 2, 19)
  {
    hide S.K;
    Sha512Example.Constants0();
  }

  lemma CubeRoots8()
    ensures CubeRoot(S.K(8), 2, 23) && CubeRoot(S.K(9), 3, 29) && CubeRoot(S.K(10), 3, 31)
    ensures CubeRoot(S.K(11), 3, 37) && CubeRoot(S.K(12), 3, 41) && CubeRoot(S.K(13), 3, 43)
    ensures CubeRoot(S.K(14), 3, 47) && CubeRoot(S.K(15), 3, 53)
  {
    hide S.K;
    Sha512Example.Constants8();
  }

  lemma CubeRoots16()
    ensures CubeRoot(S.K(16), 3, 59) && CubeRoot(S.K(17), 3, 61) && CubeRoot(S.K(18), 4, 67)
    ensures CubeRoot(S.K(19), 4, 71) && CubeRoot(S.K(20), 4, 73) && CubeRoot(S.K(21), 4, 79)
    ensures CubeRoot(S.K(22), 4, 83) && CubeRoot(S.K(23), 4, 89)
  {
    hide S.K;
    Sha512Example.Constants16();
  }

  lemma CubeRoots24()
    ensures CubeRoot(S.K(24), 4, 97) && CubeRoot(S.K(25), 4, 101) && CubeRoot(S.K(26), 4, 103)
    ensures CubeRoot(S.K(27), 4, 107) && CubeRoot(S.K(28), 4, 109) && CubeRoot(S.K(29), 4, 113)
    ensures CubeRoot(S.K(30), 5, 127) && CubeRoot(S.K(31), 5, 131)
  {
    hide S.K;
    Sha512Example.Constants24();
  }

  lemma CubeRoots32()
    ensures CubeRoot(S.K(32), 5, 137) && CubeRoot(S.K(33), 5, 139) && CubeRoot(S.K(34), 5, 149)
    ensures CubeRoot(S.K(35), 5, 151) && CubeRoot(S.K(36), 5, 157) && CubeRoot(S.K(37), 5, 163)
    ensures CubeRoot(S.K(38), 5, 167) && CubeRoot(S.K(39), 5, 173)
  {
    hide S.K;
    Sha512Example.Constants32();
  }

  lemma CubeRoots40()
    ensures CubeRoot(S.K(40), 5, 179) && CubeRoot(S.K(41), 5, 181) && CubeRoot(S.K(42), 5, 191)
    ensures CubeRoot(S.K(43), 5, 193) && CubeRoot(S.K(44), 5, 197) && CubeRoot(S.K(45), 5, 199)
    ensures CubeRoot(S.K(46), 5, 211) && CubeRoot(S.K(47), 6, 223)
  {
    hide S.K;
    Sha512Example.Constants40();
  }

  lemma CubeRoots48()
    ensures CubeRoot(S.K(48), 6, 227) && CubeRoot(S.K(49), 6, 229) && CubeRoot(S.K(50), 6, 233)
    ensures CubeRoot(S.K(51), 6, 239) && CubeRoot(S.K(52), 6, 241) && CubeRoot(S.K(53), 6, 251)
    ensures CubeRoot(S.K(54), 6, 257) && CubeRoot(S.K(55), 6, 263)
  {
    hide S.K;
    Sha512Example.Constants48();
  }

  lemma CubeRoots56()
    ensures CubeRoot(S.K(56), 6, 269) && CubeRoot(S.K(57), 6, 271) && CubeRoot(S.K(58), 6, 277)
    ensures CubeRoot(S.K(59), 6, 281) && CubeRoot(S.K(60), 6, 283) && CubeRoot(S.K(61), 6, 293)
    ensures CubeRoot(S.K(62), 6, 307) && CubeRoot(S.K(63), 6, 311)
  {
    hide S.K;
    Sha512Example.Constants56();
  }

  lemma CubeRoots64()
    ensures CubeRoot(S.K(64), 6, 313) && CubeRoot(S.K(65), 6, 317) && CubeRoot(S.K(66), 6, 331)
    ensures CubeRoot(S.K(67), 6, 337) && CubeRoot(S.K(68), 7, 347) && CubeRoot(S.K(69), 7, 349)
    ensures CubeRoot(S.K(70), 7, 353) && CubeRoot(S.K(71), 7, 359)
  {
    hide S.K;
    Sha512Example.Constants64();
  }

  lemma CubeRoots72()
    ensures CubeRoot(S.K(72), 7, 367) && CubeRoot(S.K(73), 7, 373) && CubeRoot(S.K(74), 7, 379)
    ensures CubeRoot(S.K(75), 7, 383) && CubeRoot(S.K(76), 7, 389) && CubeRoot(S.K(77), 7, 397)
    ensures CubeRoot(S.K(78), 7, 401) && CubeRoot(S.K(79), 7, 409)
  {
    hide S.K;
    Sha512Example.Constants72();
  }

  lemma InitialValues()
    ensures SquareRoot(Sha512.INITIAL_512.a, 1, 2) && SquareRoot(Sha512.INITIAL_512.b, 1, 3)
    ensures SquareRoot(Sha512.INITIAL_512.c, 2, 5) && SquareRoot(Sha512.INITIAL_512.d, 2, 7)
    ensures SquareRoot(Sha512.INITIAL_512.e, 3, 11) && SquareRoot(Sha512.INITIAL_512.f, 3, 13)
    ensures SquareRoot(Sha512.INITIAL_512.g, 4, 17) && SquareRoot(Sha512.INITIAL_512.h, 4, 19)
  {}
}
