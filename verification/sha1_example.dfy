/** The example of appendix A.1 of FIPS 180-2, step by step: the SHA-1 digest of "abc". */
module Sha1Example {
  import opened HashStream
  import opened Sha1Transform
  import opened Sha1

  /** "abc", padded to one block. */
  predicate Abc(block: Bytes) {
    && |block| == 64 && block[0] == 0x61 && block[1] == 0x62 && block[2] == 0x63 && block[3] == 0x80
    && (forall i :: 4 <= i < 63 ==> block[i] == 0) && block[63] == 24
  }

  lemma Words0(block: Bytes)
    requires |block| == 64 && Abc(block)
    ensures W(block, 0) == 0x61626380 && W(block, 1) == 0x00000000 && W(block, 2) == 0x00000000
    ensures W(block, 3) == 0x00000000 && W(block, 4) == 0x00000000 && W(block, 5) == 0x00000000
    ensures W(block, 6) == 0x00000000 && W(block, 7) == 0x00000000
  {}

  lemma Words8(block: Bytes)
    requires |block| == 64 && Abc(block)
    ensures W(block, 8) == 0x00000000 && W(block, 9) == 0x00000000 && W(block, 10) == 0x00000000
    ensures W(block, 11) == 0x00000000 && W(block, 12) == 0x00000000 && W(block, 13) == 0x00000000
    ensures W(block, 14) == 0x00000000 && W(block, 15) == 0x00000018
  {}

  lemma Next(block: Bytes, t: nat)
    requires |block| == 64 && t >= 16
    ensures W(block, t) == Rotl1(Xor(Xor(Xor(W(block, t - 3), W(block, t - 8)), W(block, t - 14)), W(block, t - 16)))
  {}

  lemma Words16(block: Bytes)
    requires |block| == 64 && Abc(block)
    ensures W(block, 16) == 0xc2c4c700 && W(block, 17) == 0x00000000 && W(block, 18) == 0x00000030
    ensures W(block, 19) == 0x85898e01 && W(block, 20) == 0x00000000 && W(block, 21) == 0x00000060
    ensures W(block, 22) == 0x0b131c03 && W(block, 23) == 0x00000030 && W(block, 24) == 0x85898ec1
    ensures W(block, 25) == 0x16263806 && W(block, 26) == 0x00000000 && W(block, 27) == 0x00000180
    ensures W(block, 28) == 0x2c4c700c && W(block, 29) == 0x000000f0 && W(block, 30) == 0x93afb507
    ensures W(block, 31) == 0x5898e048
  {
    hide W, Abc;
    Words0(block);
    Words8(block);
    Next(block, 16); Next(block, 17); Next(block, 18); Next(block, 19); Next(block, 20); Next(block, 21);
    Next(block, 22); Next(block, 23); Next(block, 24); Next(block, 25); Next(block, 26); Next(block, 27);
    Next(block, 28); Next(block, 29); Next(block, 30); Next(block, 31);
  }

  lemma Words32(block: Bytes)
    requires |block| == 64 && Abc(block)
    ensures W(block, 32) == 0x8e9a9202 && W(block, 33) == 0x00000600 && W(block, 34) == 0xb131c0f0
    ensures W(block, 35) == 0x16263bc6 && W(block, 36) == 0x4ebed41e && W(block, 37) == 0x626380a1
    ensures W(block, 38) == 0x16263806 && W(block, 39) == 0x000018c0 && W(block, 40) == 0xd2e138c4
    ensures W(block, 41) == 0x00000f00 && W(block, 42) == 0x3afb5079 && W(block, 43) == 0x898e04e5
    ensures W(block, 44) == 0xe2ba3c2b && W(block, 45) == 0x000060c0 && W(block, 46) == 0x053a37cd
    ensures W(block, 47) == 0x74458547
  {
    hide W, Abc;
    Words16(block);
    Next(block, 32); Next(block, 33); Next(block, 34); Next(block, 35); Next(block, 36); Next(block, 37);
    Next(block, 38); Next(block, 39); Next(block, 40); Next(block, 41); Next(block, 42); Next(block, 43);
    Next(block, 44); Next(block, 45); Next(block, 46); Next(block, 47);
  }

  lemma Words48(block: Bytes)
    requires |block| == 64 && Abc(block)
    ensures W(block, 48) == 0xda9415ed && W(block, 49) == 0x26380a16 && W(block, 50) == 0x626383a1
    ensures W(block, 51) == 0x4ebf54de && W(block, 52) == 0x3835b44b && W(block, 53) == 0x0000f600
    ensures W(block, 54) == 0x1e84c7a3 && W(block, 55) == 0x98e04d98 && W(block, 56) == 0x651d16a0
    ensures W(block, 57) == 0x62658ca1 && W(block, 58) == 0x458544d6 && W(block, 59) == 0x44584cb7
    ensures W(block, 60) == 0x7ba06619 && W(block, 61) == 0x6380aea2 && W(block, 62) == 0x0ae55269
    ensures W(block, 63) == 0x627b49a1
  {
    hide W, Abc;
    Words32(block);
    Next(block, 48); Next(block, 49); Next(block, 50); Next(block, 51); Next(block, 52); Next(block, 53);
    Next(block, 54); Next(block, 55); Next(block, 56); Next(block, 57); Next(block, 58); Next(block, 59);
    Next(block, 60); Next(block, 61); Next(block, 62); Next(block, 63);
  }

  lemma Words64(block: Bytes)
    requires |block| == 64 && Abc(block)
    ensures W(block, 64) == 0x7cd45c9d && W(block, 65) == 0x000f0000 && W(block, 66) == 0xfb50753a
    ensures W(block, 67) == 0xec6765e8 && W(block, 68) == 0xba3c2be2 && W(block, 69) == 0x0060c000
    ensures W(block, 70) == 0x3a37cd05 && W(block, 71) == 0x458546f4 && W(block, 72) == 0xb8599dd6
    ensures W(block, 73) == 0x380a1a26 && W(block, 74) == 0x01e02203 && W(block, 75) == 0xe7cc3456
    ensures W(block, 76) == 0xe6e60b69 && W(block, 77) == 0x00f60a00 && W(block, 78) == 0x5795ef4f
    ensures W(block, 79) == 0x822e0879
  {
    hide W, Abc;
    Words48(block);
    Next(block, 64); Next(block, 65); Next(block, 66); Next(block, 67); Next(block, 68); Next(block, 69);
    Next(block, 70); Next(block, 71); Next(block, 72); Next(block, 73); Next(block, 74); Next(block, 75);
    Next(block, 76); Next(block, 77); Next(block, 78); Next(block, 79);
  }

  lemma Pass(block: Bytes, n: nat)
    requires |block| == 64 && n < 80
    ensures After(INITIAL, block, n + 1) == Step(After(INITIAL, block, n), n, W(block, n))
  {}

  lemma Passes0(block: Bytes)
    requires |block| == 64 && Abc(block)
    ensures After(INITIAL, block, 8) ==
            Regs(0x9e8c07d4, 0x993e30c1, 0x0ff1f290, 0xb3f52677, 0xf3763846)
  {
    hide W, Abc, After;
    AtStart(INITIAL, block);
    Words0(block);
    Pass(block, 0); Pass(block, 1); Pass(block, 2); Pass(block, 3);
    assert After(INITIAL, block, 4) == Regs(0xcdd8e11b, 0xa1390f08, 0x626414db, 0xc045bf0c, 0x59d148c0);
    Pass(block, 4); Pass(block, 5); Pass(block, 6); Pass(block, 7);
  }

  lemma Passes8(block: Bytes)
    requires |block| == 64 && Abc(block)
    ensures After(INITIAL, block, 16) ==
            Regs(0x20bdd62f, 0x196bee77, 0x644a3da5, 0x1181ed99, 0x18c623f9)
  {
    hide W, Abc, After;
    Words8(block);
    Passes0(block);
    Pass(block, 8); Pass(block, 9); Pass(block, 10); Pass(block, 11);
    assert After(INITIAL, block, 12) == Regs(0x63188fe4, 0xfbda9e89, 0x60d47e4a, 0x12dab8ca, 0x27a301f5);
    Pass(block, 12); Pass(block, 13); Pass(block, 14); Pass(block, 15);
  }

  lemma Passes16(block: Bytes)
    requires |block| == 64 && Abc(block)
    ensures After(INITIAL, block, 24) ==
            Regs(0xd541f12d, 0x21283486, 0x0ce88eff, 0x868dec32, 0x7f67875f)
  {
    hide W, Abc, After;
    Words16(block);
    Passes8(block);
    Pass(block, 16); Pass(block, 17); Pass(block, 18); Pass(block, 19);
    assert After(INITIAL, block, 20) == Regs(0xfd9e1d7d, 0xdc64901d, 0x20aa99ca, 0xd3a49608, 0xc82f758b);
    Pass(block, 20); Pass(block, 21); Pass(block, 22); Pass(block, 23);
  }

  lemma Passes24(block: Bytes)
    requires |block| == 64 && Abc(block)
    ensures After(INITIAL, block, 32) ==
            Regs(0x3b845d33, 0x1267b407, 0x717eebd7, 0xa0dc2d4b, 0xd2aa1365)
  {
    hide W, Abc, After;
    Words16(block);
    Passes16(block);
    Pass(block, 24); Pass(block, 25); Pass(block, 26); Pass(block, 27);
    assert After(INITIAL, block, 28) == Regs(0x4aa84d97, 0xbe35fbd5, 0x12104ee9, 0xb1d59f71, 0x75507c4b);
    Pass(block, 28); Pass(block, 29); Pass(block, 30); Pass(block, 31);
  }

  lemma Passes32(block: Bytes)
    requires |block| == 64 && Abc(block)
    ensures After(INITIAL, block, 40) ==
            Regs(0x32de1cba, 0x4c986405, 0xf718e5cf, 0x03d447f6, 0xf72eec32)
  {
    hide W, Abc, After;
    Words32(block);
    Passes24(block);
    Pass(block, 32); Pass(block, 33); Pass(block, 34); Pass(block, 35);
    assert After(INITIAL, block, 36) == Regs(0xdcbbb0cb, 0x21796ad4, 0x4b03af04, 0x811bea82, 0xcee1174c);
    Pass(block, 36); Pass(block, 37); Pass(block, 38); Pass(block, 39);
  }

  lemma Passes40(block: Bytes)
    requires |block| == 64 && Abc(block)
    ensures After(INITIAL, block, 48) ==
            Regs(0xbead02ca, 0xa01b846c, 0x8714787c, 0x503ca382, 0xfb86c6ab)
  {
    hide W, Abc, After;
    Words32(block);
    Passes32(block);
    Pass(block, 40); Pass(block, 41); Pass(block, 42); Pass(block, 43);
    assert After(INITIAL, block, 44) == Regs(0xee1b1aaf, 0x7f193dc5, 0x25c28357, 0xff21f7b7, 0x8cb7872e);
    Pass(block, 44); Pass(block, 45); Pass(block, 46); Pass(block, 47);
  }

  lemma Passes48(block: Bytes)
    requires |block| == 64 && Abc(block)
    ensures After(INITIAL, block, 56) ==
            Regs(0x5e6456af, 0x7b71f76d, 0x09fa7c76, 0x792410db, 0x8e11eb59)
  {
    hide W, Abc, After;
    Words48(block);
    Passes40(block);
    Pass(block, 48); Pass(block, 49); Pass(block, 50); Pass(block, 51);
    assert After(INITIAL, block, 52) == Regs(0x3847ad66, 0x641db2ce, 0x4481cc71, 0xeebce4cd, 0xafab40b2);
    Pass(block, 52); Pass(block, 53); Pass(block, 54); Pass(block, 55);
  }

  lemma Passes56(block: Bytes)
    requires |block| == 64 && Abc(block)
    ensures After(INITIAL, block, 64) ==
            Regs(0x6b61c9e1, 0xb66c020b, 0x9523272c, 0xf5d5b051, 0x8fd4b796)
  {
    hide W, Abc, After;
    Words48(block);
    Passes48(block);
    Pass(block, 56); Pass(block, 57); Pass(block, 58); Pass(block, 59);
    assert After(INITIAL, block, 60) == Regs(0x3f52de5a, 0x09d785fd, 0x3498bfd4, 0xf211824f, 0xd79915ab);
    Pass(block, 60); Pass(block, 61); Pass(block, 62); Pass(block, 63);
  }

  lemma Passes64(block: Bytes)
    requires |block| == 64 && Abc(block)
    ensures After(INITIAL, block, 72) ==
            Regs(0x39859de7, 0xc199f8c7, 0x8fc96230, 0x125c24f0, 0xde37534a)
  {
    hide W, Abc, After;
    Words64(block);
    Passes56(block);
    Pass(block, 64); Pass(block, 65); Pass(block, 66); Pass(block, 67);
    assert After(INITIAL, block, 68) == Regs(0x78dd4d2b, 0x0c3df2b4, 0x4405957e, 0x0677e9eb, 0x5ad87278);
    Pass(block, 68); Pass(block, 69); Pass(block, 70); Pass(block, 71);
  }

  lemma Passes72(block: Bytes)
    requires |block| == 64 && Abc(block)
    ensures After(INITIAL, block, 80) ==
            Regs(0x42541b35, 0x5738d5e1, 0x21834873, 0x681e6df6, 0xd8fdf6ad)
  {
    hide W, Abc, After;
    Words64(block);
    Passes64(block);
    Pass(block, 72); Pass(block, 73); Pass(block, 74); Pass(block, 75);
    assert After(INITIAL, block, 76) == Regs(0x63f7dab7, 0x5ee76897, 0xc45e4fdb, 0x3b6d0b79, 0xce616779);
    Pass(block, 76); Pass(block, 77); Pass(block, 78); Pass(block, 79);
  }

  lemma LowIs()
    ensures Low(0) == 0 && Low(24) == 24
  {}

  lemma LengthIs()
    ensures Be64(24) == [0, 0, 0, 0, 0, 0, 0, 24]
  {
    hide Low;
    assert Low(0) == 0 && Low(24) == 24 by { LowIs(); }
  }

  lemma Padded()
    ensures |Pad([0x61, 0x62, 0x63], 24)| == 64 && Abc(Pad([0x61, 0x62, 0x63], 24))
  {
    hide Be64;
    LengthIs();
    assert PadZeros(3) == 52;
  }

  lemma OneBlock(block: Bytes)
    requires |block| == 64
    ensures Absorb(Compress, 64, INITIAL, block) == Compress(INITIAL, block)
  {
    assert block[..64] == block && block[64..] == [];
  }

  lemma DigestIs()
    ensures Digest(Regs(0xa9993e36, 0x4706816a, 0xba3e2571, 0x7850c26c, 0x9cd0d89d)) == [
      0xa9, 0x99, 0x3e, 0x36, 0x47, 0x06, 0x81, 0x6a, 0xba, 0x3e, 0x25, 0x71, 0x78, 0x50, 0xc2, 0x6c, 0x9c, 0xd0,
      0xd8, 0x9d]
  {
  }

  /** The result, as the standard gives it. */
  lemma AbcDigest()
    ensures Hash([0x61, 0x62, 0x63]) == [
      0xa9, 0x99, 0x3e, 0x36, 0x47, 0x06, 0x81, 0x6a, 0xba, 0x3e, 0x25, 0x71, 0x78, 0x50, 0xc2, 0x6c, 0x9c, 0xd0,
      0xd8, 0x9d]
  {
    hide Pad, Abc, After, W, Digest;
    var block := Pad([0x61, 0x62, 0x63], 24);
    Padded();
    OneBlock(block);
    Passes72(block);
    assert Compress(INITIAL, block) == Regs(0xa9993e36, 0x4706816a, 0xba3e2571, 0x7850c26c, 0x9cd0d89d);
    DigestIs();
  }
}
