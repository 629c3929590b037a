/** aes_set_key, aes_encrypt and aes_decrypt on 32-bit words, against the byte-level cipher. */
module Aes {
  import opened AesField
  import opened AesSpec
  import opened AesTables

  function PackBlock(s: Block): Quad {
    Quad(Pack(s.c0), Pack(s.c1), Pack(s.c2), Pack(s.c3))
  }

  // ------------------------------------------------------------------
  // Table look-ups
  // ------------------------------------------------------------------

  function Xor4(a: bv32, b: bv32, c: bv32, d: bv32): bv32 {
    Xor(Xor(Xor(a, b), c), d)
  }

  function AddColumn4(a: Column, b: Column, c: Column, d: Column): Column {
    AddColumn(AddColumn(AddColumn(a, b), c), d)
  }

  lemma Xor4Pack(a: Column, b: Column, c: Column, d: Column)
    ensures Xor4(Pack(a), Pack(b), Pack(c), Pack(d)) == Pack(AddColumn4(a, b, c, d))
  {
    hide Pack, Xor, AddColumn;
    XorPack(a, b);
    XorPack(AddColumn(a, b), c);
    XorPack(AddColumn(AddColumn(a, b), c), d);
  }

  function RowOf(t: Tables, a: bv8): Row
    requires |t.rows| == 256
  {
    At(t.rows, a)
  }

  /** The words selected by byte 0 of w0, byte 1 of w1, byte 2 of w2 and byte 3 of w3. */
  function PickF(t: Tables, w0: bv32, w1: bv32, w2: bv32, w3: bv32): bv32
    requires |t.rows| == 256
  {
    Xor4(RowOf(t, Unpack(w0).a0).ft.t0, RowOf(t, Unpack(w1).a1).ft.t1,
         RowOf(t, Unpack(w2).a2).ft.t2, RowOf(t, Unpack(w3).a3).ft.t3)
  }

  function PickFl(t: Tables, w0: bv32, w1: bv32, w2: bv32, w3: bv32): bv32
    requires |t.rows| == 256
  {
    Xor4(RowOf(t, Unpack(w0).a0).fl.t0, RowOf(t, Unpack(w1).a1).fl.t1,
         RowOf(t, Unpack(w2).a2).fl.t2, RowOf(t, Unpack(w3).a3).fl.t3)
  }

  function PickI(t: Tables, w0: bv32, w1: bv32, w2: bv32, w3: bv32): bv32
    requires |t.rows| == 256
  {
    Xor4(RowOf(t, Unpack(w0).a0).it.t0, RowOf(t, Unpack(w1).a1).it.t1,
         RowOf(t, Unpack(w2).a2).it.t2, RowOf(t, Unpack(w3).a3).it.t3)
  }

  function PickIl(t: Tables, w0: bv32, w1: bv32, w2: bv32, w3: bv32): bv32
    requires |t.rows| == 256
  {
    Xor4(RowOf(t, Unpack(w0).a0).il.t0, RowOf(t, Unpack(w1).a1).il.t1,
         RowOf(t, Unpack(w2).a2).il.t2, RowOf(t, Unpack(w3).a3).il.t3)
  }

  /** The four words found for the bytes of a column. */
  lemma RowsFor(t: Tables, c: Column)
    requires TablesOk(t)
    ensures RowOk(RowOf(t, c.a0), c.a0) && RowOk(RowOf(t, c.a1), c.a1)
    ensures RowOk(RowOf(t, c.a2), c.a2) && RowOk(RowOf(t, c.a3), c.a3)
  {
    hide TablesOk, At, RowOk;
    assert |t.rows| == 256 by { RowCount(t); }
    RowFor(t, c.a0);
    RowFor(t, c.a1);
    RowFor(t, c.a2);
    RowFor(t, c.a3);
  }

  lemma RowCount(t: Tables)
    requires TablesOk(t)
    ensures |t.rows| == 256 && |t.rco| == 10
  {}

  lemma UnpackAll(x0: Column, x1: Column, x2: Column, x3: Column)
    ensures Unpack(Pack(x0)) == x0 && Unpack(Pack(x1)) == x1 && Unpack(Pack(x2)) == x2 && Unpack(Pack(x3)) == x3
  {
    hide Pack, Unpack;
    UnpackPack(x0);
    UnpackPack(x1);
    UnpackPack(x2);
    UnpackPack(x3);
  }

  /** A table look-up substitutes, and multiplies by the matrix of MixColumns. */
  lemma PickFIs(t: Tables, x0: Column, x1: Column, x2: Column, x3: Column)
    requires TablesOk(t) && |t.rows| == 256
    ensures PickF(t, Pack(x0), Pack(x1), Pack(x2), Pack(x3)) ==
      Pack(MixColumn(SubWord(Column(x0.a0, x1.a1, x2.a2, x3.a3))))
  {
    hide TablesOk, Pack, Unpack, RowOf, Xor4, Mul, Plus, SBox, InvSBox;
    UnpackAll(x0, x1, x2, x3);
    RowsFor(t, Column(x0.a0, x1.a1, x2.a2, x3.a3));
    var (a, b, c, d) := (SBox(x0.a0), SBox(x1.a1), SBox(x2.a2), SBox(x3.a3));
    Xor4Pack(Column(Mul(2, a), a, a, Mul(3, a)), Column(Mul(3, b), Mul(2, b), b, b),
             Column(c, Mul(3, c), Mul(2, c), c), Column(d, d, Mul(3, d), Mul(2, d)));
  }

  lemma PickIIs(t: Tables, x0: Column, x1: Column, x2: Column, x3: Column)
    requires TablesOk(t) && |t.rows| == 256
    ensures PickI(t, Pack(x0), Pack(x1), Pack(x2), Pack(x3)) ==
      Pack(InvMixColumn(InvSubWord(Column(x0.a0, x1.a1, x2.a2, x3.a3))))
  {
    hide TablesOk, Pack, Unpack, RowOf, Xor4, Mul, Plus, SBox, InvSBox;
    UnpackAll(x0, x1, x2, x3);
    RowsFor(t, Column(x0.a0, x1.a1, x2.a2, x3.a3));
    var (a, b, c, d) := (InvSBox(x0.a0), InvSBox(x1.a1), InvSBox(x2.a2), InvSBox(x3.a3));
    Xor4Pack(Column(Mul(14, a), Mul(9, a), Mul(13, a), Mul(11, a)), Column(Mul(11, b), Mul(14, b), Mul(9, b), Mul(13, b)),
             Column(Mul(13, c), Mul(11, c), Mul(14, c), Mul(9, c)), Column(Mul(9, d), Mul(13, d), Mul(11, d), Mul(14, d)));
  }

  /** Four words with one byte each, in different places. */
  lemma Diagonal(a: bv8, b: bv8, c: bv8, d: bv8)
    ensures Xor4(Pack(Column(a, 0, 0, 0)), Pack(Column(0, b, 0, 0)), Pack(Column(0, 0, c, 0)), Pack(Column(0, 0, 0, d)))
      == Pack(Column(a, b, c, d))
  {
    hide Pack, Xor4, Plus;
    Xor4Pack(Column(a, 0, 0, 0), Column(0, b, 0, 0), Column(0, 0, c, 0), Column(0, 0, 0, d));
    PlusZero(a);
    PlusZero(b);
    PlusZero(c);
    PlusZero(d);
    PlusZero(0);
  }

  lemma PickFlIs(t: Tables, x0: Column, x1: Column, x2: Column, x3: Column)
    requires TablesOk(t) && |t.rows| == 256
    ensures PickFl(t, Pack(x0), Pack(x1), Pack(x2), Pack(x3)) == Pack(SubWord(Column(x0.a0, x1.a1, x2.a2, x3.a3)))
  {
    hide TablesOk, Pack, Unpack, RowOf, Xor4, Mul, Plus, SBox, InvSBox;
    UnpackAll(x0, x1, x2, x3);
    RowsFor(t, Column(x0.a0, x1.a1, x2.a2, x3.a3));
    Diagonal(SBox(x0.a0), SBox(x1.a1), SBox(x2.a2), SBox(x3.a3));
  }

  lemma PickIlIs(t: Tables, x0: Column, x1: Column, x2: Column, x3: Column)
    requires TablesOk(t) && |t.rows| == 256
    ensures PickIl(t, Pack(x0), Pack(x1), Pack(x2), Pack(x3)) == Pack(InvSubWord(Column(x0.a0, x1.a1, x2.a2, x3.a3)))
  {
    hide TablesOk, Pack, Unpack, RowOf, Xor4, Mul, Plus, SBox, InvSBox;
    UnpackAll(x0, x1, x2, x3);
    RowsFor(t, Column(x0.a0, x1.a1, x2.a2, x3.a3));
    Diagonal(InvSBox(x0.a0), InvSBox(x1.a1), InvSBox(x2.a2), InvSBox(x3.a3));
  }

  // ------------------------------------------------------------------
  // Rounds on words
  // ------------------------------------------------------------------

  /** f_nround */
  function FRound(t: Tables, b: Quad, k: Quad): Quad
    requires |t.rows| == 256
  {
    Quad(Xor(PickF(t, b.t0, b.t1, b.t2, b.t3), k.t0), Xor(PickF(t, b.t1, b.t2, b.t3, b.t0), k.t1),
         Xor(PickF(t, b.t2, b.t3, b.t0, b.t1), k.t2), Xor(PickF(t, b.t3, b.t0, b.t1, b.t2), k.t3))
  }

  /** f_lround */
  function FLast(t: Tables, b: Quad, k: Quad): Quad
    requires |t.rows| == 256
  {
    Quad(Xor(PickFl(t, b.t0, b.t1, b.t2, b.t3), k.t0), Xor(PickFl(t, b.t1, b.t2, b.t3, b.t0), k.t1),
         Xor(PickFl(t, b.t2, b.t3, b.t0, b.t1), k.t2), Xor(PickFl(t, b.t3, b.t0, b.t1, b.t2), k.t3))
  }

  /** i_nround */
  function IRound(t: Tables, b: Quad, k: Quad): Quad
    requires |t.rows| == 256
  {
    Quad(Xor(PickI(t, b.t0, b.t3, b.t2, b.t1), k.t0), Xor(PickI(t, b.t1, b.t0, b.t3, b.t2), k.t1),
         Xor(PickI(t, b.t2, b.t1, b.t0, b.t3), k.t2), Xor(PickI(t, b.t3, b.t2, b.t1, b.t0), k.t3))
  }

  /** i_lround */
  function ILast(t: Tables, b: Quad, k: Quad): Quad
    requires |t.rows| == 256
  {
    Quad(Xor(PickIl(t, b.t0, b.t3, b.t2, b.t1), k.t0), Xor(PickIl(t, b.t1, b.t0, b.t3, b.t2), k.t1),
         Xor(PickIl(t, b.t2, b.t1, b.t0, b.t3), k.t2), Xor(PickIl(t, b.t3, b.t2, b.t1, b.t0), k.t3))
  }

  lemma XorBlocks(s: Block, k: Block)
    ensures var (a, b) := (PackBlock(s), PackBlock(k));
      Quad(Xor(a.t0, b.t0), Xor(a.t1, b.t1), Xor(a.t2, b.t2), Xor(a.t3, b.t3)) == PackBlock(AddRoundKey(s, k))
  {
    hide Pack, Xor, AddColumn;
    XorPack(s.c0, k.c0);
    XorPack(s.c1, k.c1);
    XorPack(s.c2, k.c2);
    XorPack(s.c3, k.c3);
  }

  lemma FRoundIs(t: Tables, s: Block, k: Block)
    requires TablesOk(t) && |t.rows| == 256
    ensures FRound(t, PackBlock(s), PackBlock(k)) == PackBlock(AddRoundKey(MixColumns(SubShift(s)), k))
  {
    hide TablesOk, PickF, Xor, Pack, MixColumn, SBox, AddColumn;
    PickFIs(t, s.c0, s.c1, s.c2, s.c3);
    PickFIs(t, s.c1, s.c2, s.c3, s.c0);
    PickFIs(t, s.c2, s.c3, s.c0, s.c1);
    PickFIs(t, s.c3, s.c0, s.c1, s.c2);
    XorBlocks(MixColumns(SubShift(s)), k);
  }

  lemma FLastIs(t: Tables, s: Block, k: Block)
    requires TablesOk(t) && |t.rows| == 256
    ensures FLast(t, PackBlock(s), PackBlock(k)) == PackBlock(AddRoundKey(SubShift(s), k))
  {
    hide TablesOk, PickFl, Xor, Pack, SBox, AddColumn;
    PickFlIs(t, s.c0, s.c1, s.c2, s.c3);
    PickFlIs(t, s.c1, s.c2, s.c3, s.c0);
    PickFlIs(t, s.c2, s.c3, s.c0, s.c1);
    PickFlIs(t, s.c3, s.c0, s.c1, s.c2);
    XorBlocks(SubShift(s), k);
  }

  lemma IRoundIs(t: Tables, s: Block, k: Block)
    requires TablesOk(t) && |t.rows| == 256
    ensures IRound(t, PackBlock(s), PackBlock(k)) == PackBlock(AddRoundKey(InvMixColumns(InvSubShift(s)), k))
  {
    hide TablesOk, PickI, Xor, Pack, InvMixColumn, InvSBox, AddColumn;
    PickIIs(t, s.c0, s.c3, s.c2, s.c1);
    PickIIs(t, s.c1, s.c0, s.c3, s.c2);
    PickIIs(t, s.c2, s.c1, s.c0, s.c3);
    PickIIs(t, s.c3, s.c2, s.c1, s.c0);
    XorBlocks(InvMixColumns(InvSubShift(s)), k);
  }

  lemma ILastIs(t: Tables, s: Block, k: Block)
    requires TablesOk(t) && |t.rows| == 256
    ensures ILast(t, PackBlock(s), PackBlock(k)) == PackBlock(AddRoundKey(InvSubShift(s), k))
  {
    hide TablesOk, PickIl, Xor, Pack, InvSBox, AddColumn;
    PickIlIs(t, s.c0, s.c3, s.c2, s.c1);
    PickIlIs(t, s.c1, s.c0, s.c3, s.c2);
    PickIlIs(t, s.c2, s.c1, s.c0, s.c3);
    PickIlIs(t, s.c3, s.c2, s.c1, s.c0);
    XorBlocks(InvSubShift(s), k);
  }

  // ------------------------------------------------------------------
  // The key schedule on words
  // ------------------------------------------------------------------

  /** ls_box */
  function LsBox(t: Tables, w: bv32): bv32
    requires |t.rows| == 256
  {
    PickFl(t, w, w, w, w)
  }

  lemma LsBoxIs(t: Tables, c: Column)
    requires TablesOk(t) && |t.rows| == 256
    ensures LsBox(t, Pack(c)) == Pack(SubWord(c))
  {
    hide TablesOk, PickFl, Pack, SBox;
    PickFlIs(t, c, c, c, c);
  }

  function StarX(x: bv32): bv32 {
    ((x & 0x7f7f7f7f) << 1) ^ (((x & 0x80808080) >> 7) * 0x1b)
  }

  /** imix_col */
  function ImixCol(x: bv32): bv32 {
    var u := StarX(x);
    var v := StarX(u);
    var w := StarX(v);
    var t := Xor(w, x);
    Xor(Xor(Xor(u, v), w), Xor(Xor(Rotr(Xor(u, t), 8), Rotr(Xor(v, t), 16)), Rotr(t, 24)))
  }

  function StarXFlat(x: bv32): bv32 {
    var h := (x & 0x80808080) >> 7;
    ((x & 0x7f7f7f7f) << 1) ^ (h ^ (h << 1) ^ (h << 3) ^ (h << 4))
  }

  lemma StarXIsFlat(x: bv32)
    ensures StarX(x) == StarXFlat(x)
  {}

  function Flat(b: bv8): bv8 {
    (b << 1) ^ ((0 - (b >> 7)) & 0x1b)
  }

  lemma FlatByte0(x: bv32) ensures Unpack(StarXFlat(x)).a0 == Flat(Unpack(x).a0) {}
  lemma FlatByte1(x: bv32) ensures Unpack(StarXFlat(x)).a1 == Flat(Unpack(x).a1) {}
  lemma FlatByte2(x: bv32) ensures Unpack(StarXFlat(x)).a2 == Flat(Unpack(x).a2) {}
  lemma FlatByte3(x: bv32) ensures Unpack(StarXFlat(x)).a3 == Flat(Unpack(x).a3) {}

  function Double(c: Column): Column {
    Column(XTime(c.a0), XTime(c.a1), XTime(c.a2), XTime(c.a3))
  }

  lemma FlatIs(b: bv8)
    ensures Flat(b) == XTime(b)
  {
    XTimeFlat(b);
  }

  /** star_x doubles each of the four bytes. */
  lemma StarXIs(c: Column)
    ensures StarX(Pack(c)) == Pack(Double(c))
  {
    hide Pack, Unpack, StarX, StarXFlat, Flat, XTime;
    var x := Pack(c);
    UnpackPack(c);
    StarXIsFlat(x);
    FlatByte0(x);
    FlatByte1(x);
    FlatByte2(x);
    FlatByte3(x);
    FlatIs(c.a0);
    FlatIs(c.a1);
    FlatIs(c.a2);
    FlatIs(c.a3);
    PackUnpack(StarXFlat(x));
  }

  lemma ImixByte(x0: bv8, x1: bv8, x2: bv8, x3: bv8)
    ensures var (u0, u1, u2) := (XTime(x0), XTime(x1), XTime(x2));
      var (v0, v1, v2) := (XTime(u0), XTime(u1), XTime(u2));
      var (w0, w1, w2, w3) := (XTime(v0), XTime(v1), XTime(v2), XTime(XTime(XTime(x3))));
      Plus(Plus(Plus(u0, v0), w0), Plus(Plus(Plus(u1, Plus(w1, x1)), Plus(v2, Plus(w2, x2))), Plus(w3, x3)))
      == Sum(Mul(14, x0), Mul(11, x1), Mul(13, x2), Mul(9, x3))
  {
    hide XTime, Mul, Plus;
    var (u0, u1, u2) := (XTime(x0), XTime(x1), XTime(x2));
    var (v0, v1, v2) := (XTime(u0), XTime(u1), XTime(u2));
    var (w0, w1, w2, w3) := (XTime(v0), XTime(v1), XTime(v2), XTime(XTime(XTime(x3))));
    MulByNine(x0);
    MulByNine(x1);
    MulByNine(x2);
    MulByNine(x3);
    PlusAssoc(u0, v0, w0);
    Rearranged(x1, u1, w1);
    Rearranged(x2, v2, w2);
    PlusAssoc(w3, x3, 0);
    var (a, b, c, d) := (Mul(14, x0), Mul(11, x1), Mul(13, x2), Mul(9, x3));
    PlusAssoc(a, Plus(b, c), d);
    PlusAssoc(a, b, c);
  }

  lemma Rearranged(x: bv8, u: bv8, w: bv8)
    ensures Plus(u, Plus(w, x)) == Plus(x, Plus(u, w))
  {
    hide Plus;
    PlusAssoc(u, w, x);
    PlusAssoc(x, Plus(u, w), 0);
  }

  /** imix_col is InvMixColumns on a word. */
  lemma ImixColIs(c: Column)
    ensures ImixCol(Pack(c)) == Pack(InvMixColumn(c))
  {
    hide Pack, Xor, StarX, Rotr, XTime, Mul, Plus, Sum;
    var u := Double(c); var v := Double(u); var w := Double(v); var t := AddColumn(w, c);
    StarXIs(c);
    StarXIs(u);
    StarXIs(v);
    XorPack(w, c);
    XorPack(u, t);
    XorPack(v, t);
    var (p, q) := (AddColumn(u, t), AddColumn(v, t));
    Rotr8(p);
    Rotr16(q);
    Rotr24(t);
    var (p', q', t') := (Column(p.a1, p.a2, p.a3, p.a0), Column(q.a2, q.a3, q.a0, q.a1), Column(t.a3, t.a0, t.a1, t.a2));
    XorPack(p', q');
    XorPack(AddColumn(p', q'), t');
    XorPack(u, v);
    XorPack(AddColumn(u, v), w);
    XorPack(AddColumn(AddColumn(u, v), w), AddColumn(AddColumn(p', q'), t'));
    ImixByte(c.a0, c.a1, c.a2, c.a3);
    ImixByte(c.a1, c.a2, c.a3, c.a0);
    ImixByte(c.a2, c.a3, c.a0, c.a1);
    ImixByte(c.a3, c.a0, c.a1, c.a2);
    RowsRotate(c);
  }

  lemma RowsRotate(c: Column)
    ensures InvMixColumn(c) ==
      Column(Sum(Mul(14, c.a0), Mul(11, c.a1), Mul(13, c.a2), Mul(9, c.a3)),
             Sum(Mul(14, c.a1), Mul(11, c.a2), Mul(13, c.a3), Mul(9, c.a0)),
             Sum(Mul(14, c.a2), Mul(11, c.a3), Mul(13, c.a0), Mul(9, c.a1)),
             Sum(Mul(14, c.a3), Mul(11, c.a0), Mul(13, c.a1), Mul(9, c.a2)))
  {
    hide Mul, Sum;
    SumRotate(Mul(9, c.a0), Mul(14, c.a1), Mul(11, c.a2), Mul(13, c.a3));
    SumRotate(Mul(13, c.a0), Mul(9, c.a1), Mul(14, c.a2), Mul(11, c.a3));
    SumRotate(Mul(9, c.a1), Mul(14, c.a2), Mul(11, c.a3), Mul(13, c.a0));
    SumRotate(Mul(11, c.a0), Mul(13, c.a1), Mul(9, c.a2), Mul(14, c.a3));
    SumRotate(Mul(13, c.a1), Mul(9, c.a2), Mul(14, c.a3), Mul(11, c.a0));
    SumRotate(Mul(9, c.a2), Mul(14, c.a3), Mul(11, c.a0), Mul(13, c.a1));
  }
}
