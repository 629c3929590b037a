/** The example of appendix C.1 of FIPS 180-2, step by step: the SHA-512 digest of "abc". */
module Sha512Example {
  import opened HashStream
  import opened Sha512Transform
  import opened Sha512

  /** "abc", padded to one block. */
  predicate Abc(block: Bytes) {
    && |block| == 128 && block[0] == 0x61 && block[1] == 0x62 && block[2] == 0x63 && block[3] == 0x80
    && (forall i :: 4 <= i < 127 ==> block[i] == 0) && block[127] == 24
  }

  lemma Words0(block: Bytes)
    requires |block| == 128 && Abc(block)
    ensures W(block, 0) == 0x6162638000000000 && W(block, 1) == 0x0000000000000000
    ensures W(block, 2) == 0x0000000000000000 && W(block, 3) == 0x0000000000000000
    ensures W(block, 4) == 0x0000000000000000 && W(block, 5) == 0x0000000000000000
    ensures W(block, 6) == 0x0000000000000000 && W(block, 7) == 0x0000000000000000
  {}

  lemma Words8(block: Bytes)
    requires |block| == 128 && Abc(block)
    ensures W(block, 8) == 0x0000000000000000 && W(block, 9) == 0x0000000000000000
    ensures W(block, 10) == 0x0000000000000000 && W(block, 11) == 0x0000000000000000
    ensures W(block, 12) == 0x0000000000000000 && W(block, 13) == 0x0000000000000000
    ensures W(block, 14) == 0x0000000000000000 && W(block, 15) == 0x0000000000000018
  {}

  lemma Next(block: Bytes, t: nat)
    requires |block| == 128 && t >= 16
    ensures W(block, t) ==
            Add(Add(Add(Sigma1(W(block, t - 2)), W(block, t - 7)), Sigma0(W(block, t - 15))), W(block, t - 16))
  {}

  lemma Words16(block: Bytes)
    requires |block| == 128 && Abc(block)
    ensures W(block, 16) == 0x6162638000000000 && W(block, 17) == 0x00030000000000c0
    ensures W(block, 18) == 0x0a9699a24c700003 && W(block, 19) == 0x00000c0060000603
    ensures W(block, 20) == 0x549ef62639858996 && W(block, 21) == 0x00c0003300003c00
    ensures W(block, 22) == 0x1497007a8a0e9dbc && W(block, 23) == 0x62e56500cc0780f0
    ensures W(block, 24) == 0x7760dd475a538797 && W(block, 25) == 0xf1554b711c1c0003
    ensures W(block, 26) == 0xca2993a4345d9ff2 && W(block, 27) == 0x5e0e66b5c783dd32
    ensures W(block, 28) == 0xe25a625d00494b62 && W(block, 29) == 0x9f44486fb1e4fbd2
    ensures W(block, 30) == 0xb31b8c2b06085f2f && W(block, 31) == 0x0e987660934142f6
  {
    hide W, Abc;
    Words0(block);
    Words8(block);
    Next(block, 16); Next(block, 17); Next(block, 18); Next(block, 19); Next(block, 20); Next(block, 21);
    Next(block, 22); Next(block, 23); Next(block, 24); Next(block, 25); Next(block, 26); Next(block, 27);
    Next(block, 28); Next(block, 29); Next(block, 30); Next(block, 31);
  }

  lemma Words32(block: Bytes)
    requires |block| == 128 && Abc(block)
    ensures W(block, 32) == 0xa4af2cfd09fbb924 && W(block, 33) == 0xad289e2e0bd53186
    ensures W(block, 34) == 0x3c74563aa2f9673e && W(block, 35) == 0x6ccdcd14cc14b53f
    ensures W(block, 36) == 0xc3f925b337f22bde && W(block, 37) == 0x5bcc77a75ad95b54
    ensures W(block, 38) == 0x3ec2257adca09a52 && W(block, 39) == 0x28246960001fc5eb
    ensures W(block, 40) == 0x04e33a75ce2be88a && W(block, 41) == 0x7d5314b3c359e0e7
    ensures W(block, 42) == 0xaef7a285ff251266 && W(block, 43) == 0x0b8472581deea04f
    ensures W(block, 44) == 0xb174e26eddc7b033 && W(block, 45) == 0x5d63bae58ddd88de
    ensures W(block, 46) == 0x4c044007b744ccbb && W(block, 47) == 0xe6a9aa4d74dc7d43
  {
    hide W, Abc;
    Words16(block);
    Next(block, 32); Next(block, 33); Next(block, 34); Next(block, 35); Next(block, 36); Next(block, 37);
    Next(block, 38); Next(block, 39); Next(block, 40); Next(block, 41); Next(block, 42); Next(block, 43);
    Next(block, 44); Next(block, 45); Next(block, 46); Next(block, 47);
  }

  lemma Words48(block: Bytes)
    requires |block| == 128 && Abc(block)
    ensures W(block, 48) == 0xebeaf1237248019c && W(block, 49) == 0x361e80b2d00f3193
    ensures W(block, 50) == 0x2e9839125df3b175 && W(block, 51) == 0x3319629293ad5363
    ensures W(block, 52) == 0x9cbc5d89ac1b89d5 && W(block, 53) == 0x275e23ffeeca50b7
    ensures W(block, 54) == 0x3b80d680bf69ef58 && W(block, 55) == 0x0d0696933945a125
    ensures W(block, 56) == 0x7533eabcb786ff00 && W(block, 57) == 0xb89826cee6fbf0e5
    ensures W(block, 58) == 0x249b4fbcad623e9f && W(block, 59) == 0x4aea9df2b02d6f1e
    ensures W(block, 60) == 0x2cc57475a55e8d8f && W(block, 61) == 0xb2574ae938d8be89
    ensures W(block, 62) == 0xc1b35a57b16d6aea && W(block, 63) == 0xcc4918b5949206bb
  {
    hide W, Abc;
    Words32(block);
    Next(block, 48); Next(block, 49); Next(block, 50); Next(block, 51); Next(block, 52); Next(block, 53);
    Next(block, 54); Next(block, 55); Next(block, 56); Next(block, 57); Next(block, 58); Next(block, 59);
    Next(block, 60); Next(block, 61); Next(block, 62); Next(block, 63);
  }

  lemma Words64(block: Bytes)
    requires |block| == 128 && Abc(block)
    ensures W(block, 64) == 0x5099c3add79f90ec && W(block, 65) == 0x5ea81d78e7660bf1
    ensures W(block, 66) == 0xebee6267405ac2a9 && W(block, 67) == 0xb01f21926108a4ab
    ensures W(block, 68) == 0x786433dd2fe65556 && W(block, 69) == 0xc54a6eaa24a0552c
    ensures W(block, 70) == 0xb3c8f1530bdbaa9e && W(block, 71) == 0xbb8abfe56f469338
    ensures W(block, 72) == 0xf63d4265cc1c5a78 && W(block, 73) == 0xbe8355ea73129afb
    ensures W(block, 74) == 0x49e2db8ebdcfbeb5 && W(block, 75) == 0x82269d4a883a3d99
    ensures W(block, 76) == 0xfdf53df3011f362b && W(block, 77) == 0x464af5671d71c12e
    ensures W(block, 78) == 0xe449b68198ec611c && W(block, 79) == 0x92aeeed1a7bcf7d2
  {
    hide W, Abc;
    Words48(block);
    Next(block, 64); Next(block, 65); Next(block, 66); Next(block, 67); Next(block, 68); Next(block, 69);
    Next(block, 70); Next(block, 71); Next(block, 72); Next(block, 73); Next(block, 74); Next(block, 75);
    Next(block, 76); Next(block, 77); Next(block, 78); Next(block, 79);
  }

  lemma Constants0()
    ensures K(0) == 0x428a2f98d728ae22 && K(1) == 0x7137449123ef65cd && K(2) == 0xb5c0fbcfec4d3b2f
    ensures K(3) == 0xe9b5dba58189dbbc && K(4) == 0x3956c25bf348b538 && K(5) == 0x59f111f1b605d019
    ensures K(6) == 0x923f82a4af194f9b && K(7) == 0xab1c5ed5da6d8118
  {}

  lemma Constants8()
    ensures K(8) == 0xd807aa98a3030242 && K(9) == 0x12835b0145706fbe && K(10) == 0x243185be4ee4b28c
    ensures K(11) == 0x550c7dc3d5ffb4e2 && K(12) == 0x72be5d74f27b896f && K(13) == 0x80deb1fe3b1696b1
    ensures K(14) == 0x9bdc06a725c71235 && K(15) == 0xc19bf174cf692694
  {}

  lemma Constants16()
    ensures K(16) == 0xe49b69c19ef14ad2 && K(17) == 0xefbe4786384f25e3 && K(18) == 0x0fc19dc68b8cd5b5
    ensures K(19) == 0x240ca1cc77ac9c65 && K(20) == 0x2de92c6f592b0275 && K(21) == 0x4a7484aa6ea6e483
    ensures K(22) == 0x5cb0a9dcbd41fbd4 && K(23) == 0x76f988da831153b5
  {}

  lemma Constants24()
    ensures K(24) == 0x983e5152ee66dfab && K(25) == 0xa831c66d2db43210 && K(26) == 0xb00327c898fb213f
    ensures K(27) == 0xbf597fc7beef0ee4 && K(28) == 0xc6e00bf33da88fc2 && K(29) == 0xd5a79147930aa725
    ensures K(30) == 0x06ca6351e003826f && K(31) == 0x142929670a0e6e70
  {}

  lemma Constants32()
    ensures K(32) == 0x27b70a8546d22ffc && K(33) == 0x2e1b21385c26c926 && K(34) == 0x4d2c6dfc5ac42aed
    ensures K(35) == 0x53380d139d95b3df && K(36) == 0x650a73548baf63de && K(37) == 0x766a0abb3c77b2a8
    ensures K(38) == 0x81c2c92e47edaee6 && K(39) == 0x92722c851482353b
  {}

  lemma Constants40()
    ensures K(40) == 0xa2bfe8a14cf10364 && K(41) == 0xa81a664bbc423001 && K(42) == 0xc24b8b70d0f89791
    ensures K(43) == 0xc76c51a30654be30 && K(44) == 0xd192e819d6ef5218 && K(45) == 0xd69906245565a910
    ensures K(46) == 0xf40e35855771202a && K(47) == 0x106aa07032bbd1b8
  {}

  lemma Constants48()
    ensures K(48) == 0x19a4c116b8d2d0c8 && K(49) == 0x1e376c085141ab53 && K(50) == 0x2748774cdf8eeb99
    ensures K(51) == 0x34b0bcb5e19b48a8 && K(52) == 0x391c0cb3c5c95a63 && K(53) == 0x4ed8aa4ae3418acb
    ensures K(54) == 0x5b9cca4f7763e373 && K(55) == 0x682e6ff3d6b2b8a3
  {}

  lemma Constants56()
    ensures K(56) == 0x748f82ee5defb2fc && K(57) == 0x78a5636f43172f60 && K(58) == 0x84c87814a1f0ab72
    ensures K(59) == 0x8cc702081a6439ec && K(60) == 0x90befffa23631e28 && K(61) == 0xa4506cebde82bde9
    ensures K(62) == 0xbef9a3f7b2c67915 && K(63) == 0xc67178f2e372532b
  {}

  lemma Constants64()
    ensures K(64) == 0xca273eceea26619c && K(65) == 0xd186b8c721c0c207 && K(66) == 0xeada7dd6cde0eb1e
    ensures K(67) == 0xf57d4f7fee6ed178 && K(68) == 0x06f067aa72176fba && K(69) == 0x0a637dc5a2c898a6
    ensures K(70) == 0x113f9804bef90dae && K(71) == 0x1b710b35131c471b
  {}

  lemma Constants72()
    ensures K(72) == 0x28db77f523047d84 && K(73) == 0x32caab7b40c72493 && K(74) == 0x3c9ebe0a15c9bebc
    ensures K(75) == 0x431d67c49c100d4c && K(76) == 0x4cc5d4becb3e42b6 && K(77) == 0x597f299cfc657e2a
    ensures K(78) == 0x5fcb6fab3ad6faec && K(79) == 0x6c44198c4a475817
  {}

  lemma Pass(block: Bytes, n: nat)
    requires |block| == 128 && n < 80
    ensures After(INITIAL_512, block, n + 1) == Step(After(INITIAL_512, block, n), K(n), W(block, n))
  {}

  lemma Passes0(block: Bytes)
    requires |block| == 128 && Abc(block)
    ensures After(INITIAL_512, block, 8) ==
            Words(0x8093d195e0054fa3, 0xc4875b0c7abc076b, 0xaf573b02403e89cd, 0xb680953951604860,
            0x86f67263a0f0ec0a, 0x5a6c781f54dcc00c, 0x96f60209b6dc35ba, 0x745aca4a342ed2e2)
  {
    hide W, Abc, After, K;
    AtStart(INITIAL_512, block);
    Constants0();
    Words0(block);
    Pass(block, 0); Pass(block, 1); Pass(block, 2); Pass(block, 3); Pass(block, 4); Pass(block, 5);
    Pass(block, 6); Pass(block, 7);
  }

  lemma Passes8(block: Bytes)
    requires |block| == 128 && Abc(block)
    ensures After(INITIAL_512, block, 16) ==
            Words(0x0ae07c86b1181c75, 0xfa967eed85a08028, 0x44249631255d2ca0, 0x5e41214388186c14,
            0xa77b7c035dd4c161, 0x874bfe5f6aae9f2f, 0x860acf9effba6f61, 0xcdf3bff2883fc9d9)
  {
    hide W, Abc, After, K;
    Constants8();
    Words8(block);
    Passes0(block);
    Pass(block, 8); Pass(block, 9); Pass(block, 10); Pass(block, 11); Pass(block, 12); Pass(block, 13);
    Pass(block, 14); Pass(block, 15);
  }

  lemma Passes16(block: Bytes)
    requires |block| == 128 && Abc(block)
    ensures After(INITIAL_512, block, 24) ==
            Words(0x4f6877b58fe55484, 0x3e2644567b709a78, 0xda34d6673d452dcf, 0x8dc5ae65569d3855,
            0xc66005f87db55233, 0x0ac2b11da8f571c6, 0x8e30ff09ad488753, 0x4bb9e66d1145bfdc)
  {
    hide W, Abc, After, K;
    Constants16();
    Words16(block);
    Passes8(block);
    Pass(block, 16); Pass(block, 17); Pass(block, 18); Pass(block, 19); Pass(block, 20); Pass(block, 21);
    Pass(block, 22); Pass(block, 23);
  }

  lemma Passes24(block: Bytes)
    requires |block| == 128 && Abc(block)
    ensures After(INITIAL_512, block, 32) ==
            Words(0xff4d3f1f0d46a736, 0x4c4fbbb75f1873a6, 0x74bf40f869094c63, 0xe62349090f47d30a,
            0x3cd388e119e8162e, 0x73e025d91b9efea3, 0xf0aec2fe1437f085, 0x0fcdf99710f21584)
  {
    hide W, Abc, After, K;
    Constants24();
    Words16(block);
    Passes16(block);
    Pass(block, 24); Pass(block, 25); Pass(block, 26); Pass(block, 27); Pass(block, 28); Pass(block, 29);
    Pass(block, 30); Pass(block, 31);
  }

  lemma Passes32(block: Bytes)
    requires |block| == 128 && Abc(block)
    ensures After(INITIAL_512, block, 40) ==
            Words(0x8e01e125b855d225, 0xb3bb8542b3376de5, 0x002bb8e4cd989567, 0x88df85b0bbe77514,
            0x0c710a47ba6a567b, 0xb49596c20feba7de, 0x66adcfa249ac7bbd, 0x8fbfd0162bbf4675)
  {
    hide W, Abc, After, K;
    Constants32();
    Words32(block);
    Passes24(block);
    Pass(block, 32); Pass(block, 33); Pass(block, 34); Pass(block, 35); Pass(block, 36); Pass(block, 37);
    Pass(block, 38); Pass(block, 39);
  }

  lemma Passes40(block: Bytes)
    requires |block| == 128 && Abc(block)
    ensures After(INITIAL_512, block, 48) ==
            Words(0x6b69fc1bb482feac, 0xf61e672694de2d67, 0x021fbadbabab5ac6, 0xc47c9d5c7ea8a234,
            0x35264334c03ac8ad, 0xc6bc35740d8daa9a, 0xe95c2a57572d64d9, 0x858d832ae0e8911c)
  {
    hide W, Abc, After, K;
    Constants40();
    Words32(block);
    Passes32(block);
    Pass(block, 40); Pass(block, 41); Pass(block, 42); Pass(block, 43); Pass(block, 44); Pass(block, 45);
    Pass(block, 46); Pass(block, 47);
  }

  lemma Passes48(block: Bytes)
    requires |block| == 128 && Abc(block)
    ensures After(INITIAL_512, block, 56) ==
            Words(0x63b460e42748817e, 0xf650857b5babda4d, 0xd63f68037ddf06aa, 0x03df11b32d42e203,
            0xc6b4dd2a9931c509, 0x9ccfb31a86df0f86, 0xa6781efe1aa1ce02, 0x504f94e40591cffa)
  {
    hide W, Abc, After, K;
    Constants48();
    Words48(block);
    Passes40(block);
    Pass(block, 48); Pass(block, 49); Pass(block, 50); Pass(block, 51); Pass(block, 52); Pass(block, 53);
    Pass(block, 54); Pass(block, 55);
  }

  lemma Passes56(block: Bytes)
    requires |block| == 128 && Abc(block)
    ensures After(INITIAL_512, block, 64) ==
            Words(0xab44e86276478d85, 0xa81dedbb9f19e643, 0xcfcd928c5424e2b6, 0x3857dfd2fc37d3ba,
            0xcd881ee59ca6bc53, 0x84058865d60a05fa, 0x09aee5bda1644de5, 0xa6af4e9c9f807e51)
  {
    hide W, Abc, After, K;
    Constants56();
    Words48(block);
    Passes48(block);
    Pass(block, 56); Pass(block, 57); Pass(block, 58); Pass(block, 59); Pass(block, 60); Pass(block, 61);
    Pass(block, 62); Pass(block, 63);
  }

  lemma Passes64(block: Bytes)
    requires |block| == 128 && Abc(block)
    ensures After(INITIAL_512, block, 72) ==
            Words(0xf15e9664b2803575, 0x7652c579cb60f19c, 0xfb6aaae5d0b6a447, 0x181839d609c79748,
            0x947c3dfafee570ef, 0xaff62c9665ff80fa, 0xe3711cb6564d112d, 0x0ada78ba2d446140)
  {
    hide W, Abc, After, K;
    Constants64();
    Words64(block);
    Passes56(block);
    Pass(block, 64); Pass(block, 65); Pass(block, 66); Pass(block, 67); Pass(block, 68); Pass(block, 69);
    Pass(block, 70); Pass(block, 71);
  }

  lemma Passes72(block: Bytes)
    requires |block| == 128 && Abc(block)
    ensures After(INITIAL_512, block, 80) ==
            Words(0x73a54f399fa4b1b2, 0x10d9c4c4295599f6, 0xd67806db8b148677, 0x654ef9abec389ca9,
            0xd08446aa79693ed7, 0x9bb4d39778c07f9e, 0x25c96a7768fb2aa3, 0xceb9fc3691ce8326)
  {
    hide W, Abc, After, K;
    Constants72();
    Words64(block);
    Passes64(block);
    Pass(block, 72); Pass(block, 73); Pass(block, 74); Pass(block, 75); Pass(block, 76); Pass(block, 77);
    Pass(block, 78); Pass(block, 79);
  }

  lemma LengthIs()
    ensures Be128(24) == [0, 0, 0, 0, 0, 0, 0, 0, 0, 0, 0, 0, 0, 0, 0, 24]
  {
  }

  lemma Padded()
    ensures |Pad([0x61, 0x62, 0x63], 24)| == 128 && Abc(Pad([0x61, 0x62, 0x63], 24))
  {
    hide Be128;
    LengthIs();
    assert PadZeros(3) == 108;
  }

  lemma OneBlock(block: Bytes)
    requires |block| == 128
    ensures Absorb(Compress, 128, INITIAL_512, block) == Compress(INITIAL_512, block)
  {
    assert block[..128] == block && block[128..] == [];
  }

  lemma DigestIs()
    ensures Digest(Words(
      0xddaf35a193617aba, 0xcc417349ae204131, 0x12e6fa4e89a97ea2, 0x0a9eeee64b55d39a,
      0x2192992a274fc1a8, 0x36ba3c23a3feebbd, 0x454d4423643ce80e, 0x2a9ac94fa54ca49f)) ==
      [0xdd, 0xaf, 0x35, 0xa1, 0x93, 0x61, 0x7a, 0xba]
      + [0xcc, 0x41, 0x73, 0x49, 0xae, 0x20, 0x41, 0x31]
      + [0x12, 0xe6, 0xfa, 0x4e, 0x89, 0xa9, 0x7e, 0xa2]
      + [0x0a, 0x9e, 0xee, 0xe6, 0x4b, 0x55, 0xd3, 0x9a]
      + [0x21, 0x92, 0x99, 0x2a, 0x27, 0x4f, 0xc1, 0xa8]
      + [0x36, 0xba, 0x3c, 0x23, 0xa3, 0xfe, 0xeb, 0xbd]
      + [0x45, 0x4d, 0x44, 0x23, 0x64, 0x3c, 0xe8, 0x0e]
      + [0x2a, 0x9a, 0xc9, 0x4f, 0xa5, 0x4c, 0xa4, 0x9f]
  {
    assert BeWord(0xddaf35a193617aba) == [0xdd, 0xaf, 0x35, 0xa1, 0x93, 0x61, 0x7a, 0xba];
    assert BeWord(0xcc417349ae204131) == [0xcc, 0x41, 0x73, 0x49, 0xae, 0x20, 0x41, 0x31];
    assert BeWord(0x12e6fa4e89a97ea2) == [0x12, 0xe6, 0xfa, 0x4e, 0x89, 0xa9, 0x7e, 0xa2];
    assert BeWord(0x0a9eeee64b55d39a) == [0x0a, 0x9e, 0xee, 0xe6, 0x4b, 0x55, 0xd3, 0x9a];
    assert BeWord(0x2192992a274fc1a8) == [0x21, 0x92, 0x99, 0x2a, 0x27, 0x4f, 0xc1, 0xa8];
    assert BeWord(0x36ba3c23a3feebbd) == [0x36, 0xba, 0x3c, 0x23, 0xa3, 0xfe, 0xeb, 0xbd];
    assert BeWord(0x454d4423643ce80e) == [0x45, 0x4d, 0x44, 0x23, 0x64, 0x3c, 0xe8, 0x0e];
    assert BeWord(0x2a9ac94fa54ca49f) == [0x2a, 0x9a, 0xc9, 0x4f, 0xa5, 0x4c, 0xa4, 0x9f];
  }

  /** The result, as the standard gives it. */
  lemma AbcDigest()
    ensures Hash(INITIAL_512, [0x61, 0x62, 0x63]) ==
      [0xdd, 0xaf, 0x35, 0xa1, 0x93, 0x61, 0x7a, 0xba]
      + [0xcc, 0x41, 0x73, 0x49, 0xae, 0x20, 0x41, 0x31]
      + [0x12, 0xe6, 0xfa, 0x4e, 0x89, 0xa9, 0x7e, 0xa2]
      + [0x0a, 0x9e, 0xee, 0xe6, 0x4b, 0x55, 0xd3, 0x9a]
      + [0x21, 0x92, 0x99, 0x2a, 0x27, 0x4f, 0xc1, 0xa8]
      + [0x36, 0xba, 0x3c, 0x23, 0xa3, 0xfe, 0xeb, 0xbd]
      + [0x45, 0x4d, 0x44, 0x23, 0x64, 0x3c, 0xe8, 0x0e]
      + [0x2a, 0x9a, 0xc9, 0x4f, 0xa5, 0x4c, 0xa4, 0x9f]
  {
    hide Pad, Abc, After, W, Digest;
    var block := Pad([0x61, 0x62, 0x63], 24);
    Padded();
    OneBlock(block);
    Passes72(block);
    assert Compress(INITIAL_512, block) == Words(
      0xddaf35a193617aba, 0xcc417349ae204131, 0x12e6fa4e89a97ea2, 0x0a9eeee64b55d39a,
      0x2192992a274fc1a8, 0x36ba3c23a3feebbd, 0x454d4423643ce80e, 0x2a9ac94fa54ca49f);
    DigestIs();
  }
}
