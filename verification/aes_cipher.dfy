/** The AES transform: its context, and the three operations on it. */
module AesCipher {
  import opened Common
  import opened AesField
  import opened AesSpec
  import opened AesTables
  import opened Aes

  /** The words of the expanded key that follow from the one before and the one a key's length back. */
  lemma KeyWordIs(key: seq<bv8>, i: nat, j: nat)
    requires KeySize(key) && j < Nk(key)
    ensures var nk := Nk(key);
      var n := nk * (i + 1) + j;
      KeyWord(key, n) == AddColumn(KeyWord(key, n - nk),
        if j == 0 then AddColumn(SubWord(RotWord(KeyWord(key, n - 1))), Rcon(i + 1))
        else if nk == 8 && j == 4 then SubWord(KeyWord(key, n - 1))
        else KeyWord(key, n - 1))
  {
    hide SubWord, RotWord, Rcon, AddColumn;
    var nk := Nk(key);
    var n := nk * (i + 1) + j;
    DivModUnique(n, nk, i + 1, j);
    assert n >= nk by { MulMonotone(1, i + 1, nk); }
  }

  lemma KeyStart(key: seq<bv8>, i: nat)
    requires KeySize(key) && i < Nk(key)
    ensures KeyWord(key, i) == KeyColumn(key, i)
  {}

  lemma AddColumnComm(a: Column, b: Column)
    ensures AddColumn(a, b) == AddColumn(b, a)
  {
    hide Plus;
    PlusAssoc(a.a0, b.a0, 0);
    PlusAssoc(a.a1, b.a1, 0);
    PlusAssoc(a.a2, b.a2, 0);
    PlusAssoc(a.a3, b.a3, 0);
  }

  /** One word of loop4, loop6 or loop8. */
  function NextWord(t: Tables, nk: nat, i: nat, j: nat, last: bv32, back: bv32): bv32
    requires |t.rows| == 256 && i < |t.rco|
  {
    Xor(if j == 0 then Xor(LsBox(t, Rotr(last, 8)), t.rco[i])
        else if nk == 8 && j == 4 then LsBox(t, last)
        else last, back)
  }

  lemma NextWordIs(t: Tables, key: seq<bv8>, i: nat, j: nat)
    requires TablesOk(t) && |t.rows| == 256 && i < |t.rco| && KeySize(key) && j < Nk(key)
    requires Nk(key) * (i + 1) + j >= Nk(key)
    ensures var nk := Nk(key);
      var n := nk * (i + 1) + j;
      NextWord(t, nk, i, j, Pack(KeyWord(key, n - 1)), Pack(KeyWord(key, n - nk))) == Pack(KeyWord(key, n))
  {
    hide Pack, Xor, LsBox, Rotr, SubWord, Rcon, AddColumn, KeyWord, RowsOk;
    var nk := Nk(key);
    var n := nk * (i + 1) + j;
    var last, back := KeyWord(key, n - 1), KeyWord(key, n - nk);
    KeyWordIs(key, i, j);
    Rotr8(last);
    LsBoxIs(t, RotWord(last));
    LsBoxIs(t, last);
    XorPack(SubWord(RotWord(last)), Rcon(i + 1));
    var x := if j == 0 then AddColumn(SubWord(RotWord(last)), Rcon(i + 1))
      else if nk == 8 && j == 4 then SubWord(last) else last;
    XorPack(x, back);
    AddColumnComm(x, back);
  }

  /** Where the words of a key schedule are: E at 0, D at 60. */
  ghost predicate Expanded(words: seq<bv32>, key: seq<bv8>, n: nat) {
    KeySize(key) && n <= |words| && forall m {:trigger words[m]} :: 0 <= m < n ==> words[m] == Pack(KeyWord(key, m))
  }

  ghost function InvWord(key: seq<bv8>, m: nat): Column
    requires KeySize(key)
  {
    if m < 4 then KeyWord(key, m) else InvMixColumn(KeyWord(key, m))
  }

  ghost predicate InvAt(words: seq<bv32>, key: seq<bv8>, m: nat) {
    KeySize(key) && 60 + m < |words| && words[60 + m] == Pack(InvWord(key, m))
  }

  ghost predicate InvExpanded(words: seq<bv32>, key: seq<bv8>, n: nat) {
    KeySize(key) && 60 + n <= |words| && forall m {:trigger InvAt(words, key, m)} :: 0 <= m < n ==> InvAt(words, key, m)
  }

  function BlockOf(b: seq<bv8>): Block
    requires |b| == 16
  {
    Block(KeyColumn(b, 0), KeyColumn(b, 1), KeyColumn(b, 2), KeyColumn(b, 3))
  }

  /** u32_in */
  function U32In(b: seq<bv8>, i: nat): bv32
    requires 4 * i + 4 <= |b|
  {
    Join(b[4 * i], b[4 * i + 1], b[4 * i + 2], b[4 * i + 3])
  }

  function XorIn(b: seq<bv8>, k: Quad): Quad
    requires |b| == 16
  {
    Quad(Xor(U32In(b, 0), k.t0), Xor(U32In(b, 1), k.t1), Xor(U32In(b, 2), k.t2), Xor(U32In(b, 3), k.t3))
  }

  lemma U32InIs(b: seq<bv8>, i: nat)
    requires 4 * i + 4 <= |b|
    ensures U32In(b, i) == Pack(KeyColumn(b, i))
  {
    hide Join;
  }

  function Bytes(c: Column): seq<bv8> {
    [c.a0, c.a1, c.a2, c.a3]
  }

  /** The four u32_out at the end. */
  function Output(q: Quad): (b: seq<bv8>)
    ensures |b| == 16
  {
    Bytes(Unpack(q.t0)) + Bytes(Unpack(q.t1)) + Bytes(Unpack(q.t2)) + Bytes(Unpack(q.t3))
  }

  lemma OutputIs(s: Block)
    ensures BlockOf(Output(PackBlock(s))) == s
  {
    hide Pack, Unpack;
    UnpackPack(s.c0);
    UnpackPack(s.c1);
    UnpackPack(s.c2);
    UnpackPack(s.c3);
  }

  class AesCtx {
    const tabs: Tables
    /** E_KEY followed by D_KEY: 60 words each */
    const words: array<bv32>
    var keyLength: nat

    ghost predicate Valid()
      reads this
    {
      TablesOk(tabs) && words.Length == 120
    }

    /** The context holds the schedules of `key`. */
    ghost predicate Keyed(key: seq<bv8>)
      reads this, words
    {
      && Valid() && KeySize(key) && keyLength == |key|
      && Expanded(words[..], key, |key| + 28) && InvExpanded(words[..], key, |key| + 24)
    }

    /** gen_tabs and an empty context */
    constructor ()
      ensures Valid() && fresh(words)
    {
      var t := GenTabs();
      tabs := t;
      words := new bv32[120];
      keyLength := 0;
    }

    /** One pass of loop4, loop6 or loop8: the words from base + nk on. */
    method Loop(ghost key: seq<bv8>, nk: nat, i: nat, base: nat)
      requires Valid() && KeySize(key) && nk == Nk(key) && base == nk * i && base + 2 * nk <= 120 && i < 10
      requires Expanded(words[..], key, base + nk)
      modifies words
      ensures Expanded(words[..], key, base + 2 * nk)
    {
      hide TablesOk, Pack, KeyWord, NextWord, KeySize;
      RowCount(tabs);
      var t := words[base + nk - 1];
      var j: nat := 0;
      while j < nk
        invariant j <= nk && Expanded(words[..], key, base + nk + j)
        invariant t == words[base + nk + j - 1]
      {
        assert nk * (i + 1) == base + nk;
        NextWordIs(tabs, key, i, j);
        assert words[..][base + j] == Pack(KeyWord(key, base + j));
        assert words[..][base + nk + j - 1] == Pack(KeyWord(key, base + nk + j - 1));
        t := NextWord(tabs, nk, i, j, t, words[base + j]);
        words[base + nk + j] := t;
        j := j + 1;
      }
    }

    method ExpandKey(ghost key: seq<bv8>, nk: nat, passes: nat)
      requires Valid() && KeySize(key) && nk == Nk(key) && passes == (if nk == 4 then 10 else if nk == 6 then 8 else 7)
      requires Expanded(words[..], key, nk)
      modifies words
      ensures Expanded(words[..], key, 4 * nk + 28)
    {
      hide TablesOk, Pack, KeyWord;
      var i: nat, base: nat := 0, 0;
      while i < passes
        invariant i <= passes && base == nk * i && Expanded(words[..], key, base + nk)
      {
        Loop(key, nk, i, base);
        i, base := i + 1, base + nk;
      }
    }

    /** The user's key becomes the first words of the schedule. */
    method LoadKey(key: seq<bv8>)
      requires Valid() && KeySize(key)
      modifies words
      ensures Expanded(words[..], key, Nk(key))
    {
      hide TablesOk, KeyWord, Pack, U32In;
      var i: nat := 0;
      while i < Nk(key)
        invariant i <= Nk(key) && Expanded(words[..], key, i)
      {
        KeyStart(key, i);
        U32InIs(key, i);
        words[i] := U32In(key, i);
        i := i + 1;
      }
    }

    method InvertKey(ghost key: seq<bv8>)
      requires Valid() && KeySize(key) && keyLength == |key| && Expanded(words[..], key, |key| + 28)
      modifies words
      ensures Expanded(words[..], key, |key| + 28) && InvExpanded(words[..], key, |key| + 24)
    {
      hide TablesOk, Pack, KeyWord, ImixCol, InvMixColumn;
      words[60], words[61], words[62], words[63] := words[0], words[1], words[2], words[3];
      FirstWords(words[..], key);
      var i: nat := 4;
      while i < keyLength + 24
        invariant 4 <= i <= keyLength + 24
        invariant Expanded(words[..], key, |key| + 28) && InvExpanded(words[..], key, i)
      {
        assert words[..][i] == Pack(KeyWord(key, i));
        ImixColIs(KeyWord(key, i));
        ghost var w := words[..];
        words[60 + i] := ImixCol(words[i]);
        assert words[..] == w[60 + i := Pack(InvMixColumn(KeyWord(key, i)))];
        InvStep(w, key, i);
        i := i + 1;
      }
    }

    /** aes_set_key */
    method SetKey(key: seq<bv8>) returns (ok: bool)
      requires Valid()
      modifies this`keyLength, words
      ensures ok <==> KeySize(key)
      ensures Valid() && (ok ==> Keyed(key))
      ensures !ok ==> keyLength == old(keyLength) && words[..] == old(words[..])
    {
      if |key| != 16 && |key| != 24 && |key| != 32 {
        return false;
      }
      hide TablesOk;
      keyLength := |key|;
      LoadKey(key);
      ExpandKey(key, Nk(key), if |key| == 16 then 10 else if |key| == 24 then 8 else 7);
      InvertKey(key);
      return true;
    }

    function KeyAt(at: nat): Quad
      requires at + 4 <= words.Length
      reads words
    {
      Quad(words[at], words[at + 1], words[at + 2], words[at + 3])
    }

    lemma RoundKeyAt(key: seq<bv8>, r: nat)
      requires Keyed(key) && r <= Rounds(key)
      ensures KeyAt(4 * r) == PackBlock(RoundKey(key, r))
    {
      hide TablesOk, Pack, KeyWord;
      var w := words[..];
      assert w[4 * r] == words[4 * r] && w[4 * r + 1] == words[4 * r + 1];
      assert w[4 * r + 2] == words[4 * r + 2] && w[4 * r + 3] == words[4 * r + 3];
    }

    lemma InvRoundKeyAt(key: seq<bv8>, r: nat)
      requires Keyed(key) && r < Rounds(key)
      ensures KeyAt(60 + 4 * r) == PackBlock(InvRoundKey(key, r))
    {
      hide TablesOk, Pack, KeyWord, InvMixColumn;
      var w, m := words[..], 4 * r;
      assert InvAt(w, key, m) && InvAt(w, key, m + 1) && InvAt(w, key, m + 2) && InvAt(w, key, m + 3);
    }

    /** One f_nround: from r rounds to r + 1. */
    method EncryptRound(ghost key: seq<bv8>, ghost input: Block, ghost r: nat, b: Quad, kp: nat)
      returns (b': Quad, kp': nat)
      requires Keyed(key) && r + 1 < Rounds(key) && kp == 4 * (r + 1) && b == PackBlock(AfterRounds(key, input, r))
      ensures b' == PackBlock(AfterRounds(key, input, r + 1)) && kp' == 4 * (r + 2)
    {
      hide TablesOk, PackBlock, FRound, AddRoundKey, MixColumns, SubShift, RoundKey, Expanded, InvExpanded;
      RowCount(tabs);
      RoundKeyAt(key, r + 1);
      FRoundIs(tabs, AfterRounds(key, input, r), RoundKey(key, r + 1));
      b', kp' := FRound(tabs, b, KeyAt(kp)), kp + 4;
    }

    lemma EncryptStarts(key: seq<bv8>, input: seq<bv8>)
      requires Keyed(key) && |input| == 16
      ensures XorIn(input, KeyAt(0)) == PackBlock(AfterRounds(key, BlockOf(input), 0))
    {
      hide TablesOk, PackBlock, XorIn, Expanded, InvExpanded, KeyAt, RoundKey, AddRoundKey;
      RoundKeyAt(key, 0);
      XorInput(input, RoundKey(key, 0));
    }

    lemma EncryptEnds(key: seq<bv8>, s: Block)
      requires Keyed(key) && |tabs.rows| == 256
      ensures FLast(tabs, PackBlock(AfterRounds(key, s, Rounds(key) - 1)), KeyAt(4 * Rounds(key))) == PackBlock(Cipher(key, s))
    {
      hide TablesOk, PackBlock, FLast, Expanded, InvExpanded, KeyAt, RoundKey, AddRoundKey, AfterRounds, SubShift;
      RoundKeyAt(key, Rounds(key));
      FLastIs(tabs, AfterRounds(key, s, Rounds(key) - 1), RoundKey(key, Rounds(key)));
    }

    lemma DecryptStarts(key: seq<bv8>, input: seq<bv8>)
      requires Keyed(key) && |input| == 16
      ensures XorIn(input, KeyAt(keyLength + 24)) == PackBlock(InvAfterRounds(key, BlockOf(input), 0))
    {
      hide TablesOk, PackBlock, XorIn, Expanded, InvExpanded, KeyAt, RoundKey, AddRoundKey;
      RoundKeyAt(key, Rounds(key));
      XorInput(input, RoundKey(key, Rounds(key)));
    }

    lemma DecryptEnds(key: seq<bv8>, s: Block)
      requires Keyed(key) && |tabs.rows| == 256
      ensures ILast(tabs, PackBlock(InvAfterRounds(key, s, Rounds(key) - 1)), KeyAt(60)) == PackBlock(InvCipher(key, s))
    {
      hide TablesOk, PackBlock, ILast, Expanded, InvExpanded, KeyAt, InvRoundKey, AddRoundKey, InvAfterRounds, InvSubShift;
      InvRoundKeyAt(key, 0);
      ILastIs(tabs, InvAfterRounds(key, s, Rounds(key) - 1), InvRoundKey(key, 0));
    }

    /** aes_encrypt computes the cipher of FIPS 197. */
    method Encrypt(ghost key: seq<bv8>, input: seq<bv8>) returns (out: seq<bv8>)
      requires Keyed(key) && |input| == 16
      ensures |out| == 16 && BlockOf(out) == Cipher(key, BlockOf(input))
    {
      hide TablesOk, PackBlock, FLast, AfterRounds, Cipher, XorIn, Expanded, InvExpanded, KeyAt, Output, BlockOf;
      RowCount(tabs);
      ghost var s := BlockOf(input);
      EncryptStarts(key, input);
      var b0 := XorIn(input, KeyAt(0));
      var kp: nat, b1 := 4, b0;
      ghost var r: nat := 0;
      if keyLength > 24 {
        b1, kp := EncryptRound(key, s, 0, b0, kp);
        b0, kp := EncryptRound(key, s, 1, b1, kp);
        r := 2;
      }
      if keyLength > 16 {
        b1, kp := EncryptRound(key, s, r, b0, kp);
        b0, kp := EncryptRound(key, s, r + 1, b1, kp);
        r := r + 2;
      }
      assert r == Rounds(key) - 10;
      b1, kp := EncryptRound(key, s, r, b0, kp);
      b0, kp := EncryptRound(key, s, r + 1, b1, kp);
      b1, kp := EncryptRound(key, s, r + 2, b0, kp);
      b0, kp := EncryptRound(key, s, r + 3, b1, kp);
      b1, kp := EncryptRound(key, s, r + 4, b0, kp);
      b0, kp := EncryptRound(key, s, r + 5, b1, kp);
      b1, kp := EncryptRound(key, s, r + 6, b0, kp);
      b0, kp := EncryptRound(key, s, r + 7, b1, kp);
      b1, kp := EncryptRound(key, s, r + 8, b0, kp);
      EncryptEnds(key, s);
      b0 := FLast(tabs, b1, KeyAt(kp));
      OutputIs(Cipher(key, s));
      out := Output(b0);
    }

    /** One i_nround. */
    method DecryptRound(ghost key: seq<bv8>, ghost input: Block, ghost j: nat, b: Quad, kp: nat)
      returns (b': Quad, kp': nat)
      requires Keyed(key) && j + 1 < Rounds(key) && kp == 60 + 4 * (Rounds(key) - j - 1)
      requires b == PackBlock(InvAfterRounds(key, input, j))
      ensures b' == PackBlock(InvAfterRounds(key, input, j + 1)) && kp' == 60 + 4 * (Rounds(key) - j - 2)
    {
      hide TablesOk, PackBlock, IRound, AddRoundKey, InvMixColumns, InvSubShift, InvRoundKey, Expanded, InvExpanded;
      RowCount(tabs);
      ghost var r := Rounds(key) - j - 1;
      InvRoundKeyAt(key, r);
      IRoundIs(tabs, InvAfterRounds(key, input, j), InvRoundKey(key, r));
      b', kp' := IRound(tabs, b, KeyAt(kp)), kp - 4;
    }

    /** aes_decrypt computes the equivalent inverse cipher of FIPS 197. */
    method Decrypt(ghost key: seq<bv8>, input: seq<bv8>) returns (out: seq<bv8>)
      requires Keyed(key) && |input| == 16
      ensures |out| == 16 && BlockOf(out) == InvCipher(key, BlockOf(input))
    {
      hide TablesOk, PackBlock, ILast, InvAfterRounds, InvCipher, XorIn, Expanded, InvExpanded, KeyAt, Output, BlockOf;
      RowCount(tabs);
      ghost var s, n := BlockOf(input), Rounds(key);
      DecryptStarts(key, input);
      var b0 := XorIn(input, KeyAt(keyLength + 24));
      var kp: nat, b1 := 60 + keyLength + 20, b0;
      ghost var j: nat := 0;
      if keyLength > 24 {
        b1, kp := DecryptRound(key, s, 0, b0, kp);
        b0, kp := DecryptRound(key, s, 1, b1, kp);
        j := 2;
      }
      if keyLength > 16 {
        b1, kp := DecryptRound(key, s, j, b0, kp);
        b0, kp := DecryptRound(key, s, j + 1, b1, kp);
        j := j + 2;
      }
      assert j == n - 10;
      b1, kp := DecryptRound(key, s, j, b0, kp);
      b0, kp := DecryptRound(key, s, j + 1, b1, kp);
      b1, kp := DecryptRound(key, s, j + 2, b0, kp);
      b0, kp := DecryptRound(key, s, j + 3, b1, kp);
      b1, kp := DecryptRound(key, s, j + 4, b0, kp);
      b0, kp := DecryptRound(key, s, j + 5, b1, kp);
      b1, kp := DecryptRound(key, s, j + 6, b0, kp);
      b0, kp := DecryptRound(key, s, j + 7, b1, kp);
      b1, kp := DecryptRound(key, s, j + 8, b0, kp);
      DecryptEnds(key, s);
      b0 := ILast(tabs, b1, KeyAt(kp));
      OutputIs(InvCipher(key, s));
      out := Output(b0);
    }
  }

  lemma FirstWords(words: seq<bv32>, key: seq<bv8>)
    requires |words| == 120 && Expanded(words[..60], key, |key| + 28)
    requires words[60..64] == words[..4]
    ensures Expanded(words, key, |key| + 28) && InvExpanded(words, key, 4)
  {
    hide Pack, KeyWord;
    forall m {:trigger words[m]} | 0 <= m < |key| + 28 ensures words[m] == Pack(KeyWord(key, m)) {
      assert words[..60][m] == words[m];
    }
    forall m | 0 <= m < 4 ensures InvAt(words, key, m) {
      assert words[60..64][m] == words[..4][m];
    }
  }

  lemma InvStep(w: seq<bv32>, key: seq<bv8>, i: nat)
    requires |w| == 120 && 4 <= i < |key| + 24 && Expanded(w, key, |key| + 28) && InvExpanded(w, key, i)
    ensures var w' := w[60 + i := Pack(InvMixColumn(KeyWord(key, i)))];
      Expanded(w', key, |key| + 28) && InvExpanded(w', key, i + 1)
  {
    hide Pack, KeyWord, InvMixColumn;
    var w' := w[60 + i := Pack(InvMixColumn(KeyWord(key, i)))];
    forall m | 0 <= m < i + 1 ensures InvAt(w', key, m) {
      assert m < i ==> InvAt(w, key, m);
    }
  }

  lemma XorInput(input: seq<bv8>, k: Block)
    requires |input| == 16
    ensures XorIn(input, PackBlock(k)) == PackBlock(AddRoundKey(BlockOf(input), k))
  {
    hide Xor, Join, AddRoundKey;
    XorBlocks(BlockOf(input), k);
  }

  /** What was encrypted under a key is what decryption under that key returns. */
  method RoundTrip(key: seq<bv8>, input: seq<bv8>) returns (ok: bool, out: seq<bv8>)
    requires |input| == 16
    ensures ok <==> KeySize(key)
    ensures ok ==> out == input
  {
    hide TablesOk, Cipher, InvCipher;
    var ctx := new AesCtx();
    out := [];
    ok := ctx.SetKey(key);
    if ok {
      var c := ctx.Encrypt(key, input);
      out := ctx.Decrypt(key, c);
      Inverts(key, BlockOf(input));
      BlocksEqual(out, input);
    }
  }

  lemma BlocksEqual(a: seq<bv8>, b: seq<bv8>)
    requires |a| == 16 && |b| == 16 && BlockOf(a) == BlockOf(b)
    ensures a == b
  {
    BlockBytes(a);
    BlockBytes(b);
  }

  lemma BlockBytes(a: seq<bv8>)
    requires |a| == 16
    ensures var s := BlockOf(a); a == Bytes(s.c0) + Bytes(s.c1) + Bytes(s.c2) + Bytes(s.c3)
  {}
}
