/** The cipher as sections 5.1 and 5.2 of FIPS 197 define it, byte by byte. */
module AesSpec {
  import opened AesField

  /** A word of the key schedule, or a column of the state. */
  datatype Column = Column(a0: bv8, a1: bv8, a2: bv8, a3: bv8)

  datatype Block = Block(c0: Column, c1: Column, c2: Column, c3: Column)

  // ------------------------------------------------------------------
  // The S-box, section 5.1.1
  // ------------------------------------------------------------------

  ghost function Inverse(a: bv8): (b: bv8)
    ensures if a == 0 then b == 0 else Mul(a, b) == 1
  {
    if a == 0 then 0
    else
      assert exists b :: Mul(a, b) == 1 by { var b := InverseExists(a); }
      var b :| Mul(a, b) == 1;
      b
  }

  function Bit(b: bv8, i: nat): bv8
    requires i < 8
  {
    (b >> i) & 1
  }

  /** Bit i of the affine transformation, (5.1). */
  function AffineBit(b: bv8, i: nat): bv8
    requires i < 8
  {
    Bit(b, i) ^ Bit(b, (i + 4) % 8) ^ Bit(b, (i + 5) % 8) ^ Bit(b, (i + 6) % 8) ^ Bit(b, (i + 7) % 8) ^ Bit(0x63, i)
  }

  function Affine(b: bv8): bv8 {
    AffineBit(b, 0) | (AffineBit(b, 1) << 1) | (AffineBit(b, 2) << 2) | (AffineBit(b, 3) << 3)
    | (AffineBit(b, 4) << 4) | (AffineBit(b, 5) << 5) | (AffineBit(b, 6) << 6) | (AffineBit(b, 7) << 7)
  }

  ghost function SBox(b: bv8): bv8 {
    Affine(Inverse(b))
  }

  function Rotated(b: bv8, i: nat): bv8
    requires 0 < i < 8
  {
    (b << i) | (b >> (8 - i))
  }

  lemma AffineIs(b: bv8)
    ensures Affine(b) == b ^ Rotated(b, 1) ^ Rotated(b, 2) ^ Rotated(b, 3) ^ Rotated(b, 4) ^ 0x63
  {}

  /** The inverse of the affine transformation. */
  function InvAffine(b: bv8): bv8 {
    Rotated(b, 1) ^ Rotated(b, 3) ^ Rotated(b, 6) ^ 0x05
  }

  lemma InvAffineAffine(b: bv8)
    ensures InvAffine(Affine(b)) == b && Affine(InvAffine(b)) == b
  {
    hide Affine;
    AffineIs(b);
    AffineIs(InvAffine(b));
  }

  lemma InverseInverse(a: bv8)
    ensures Inverse(Inverse(a)) == a
  {
    hide Mul, Inverse;
    if a != 0 {
      var b := Inverse(a);
      assert b != 0 by { MulZero(a); }
      MulComm(a, b);
      InverseUnique(b, Inverse(b), a);
    }
  }

  ghost function InvSBox(b: bv8): bv8 {
    Inverse(InvAffine(b))
  }

  /** The S-box is a bijection. */
  lemma SBoxInverts(b: bv8)
    ensures InvSBox(SBox(b)) == b && SBox(InvSBox(b)) == b
  {
    hide Affine, InvAffine, Inverse;
    InverseInverse(b);
    InverseInverse(InvAffine(b));
    InvAffineAffine(Inverse(b));
    InvAffineAffine(b);
  }

  // ------------------------------------------------------------------
  // The round, sections 5.1.1 to 5.1.4
  // ------------------------------------------------------------------

  ghost function SubWord(c: Column): Column {
    Column(SBox(c.a0), SBox(c.a1), SBox(c.a2), SBox(c.a3))
  }

  ghost function SubBytes(s: Block): Block {
    Block(SubWord(s.c0), SubWord(s.c1), SubWord(s.c2), SubWord(s.c3))
  }

  /** Row r moves r places to the left. */
  function ShiftRows(s: Block): Block {
    Block(Column(s.c0.a0, s.c1.a1, s.c2.a2, s.c3.a3), Column(s.c1.a0, s.c2.a1, s.c3.a2, s.c0.a3),
          Column(s.c2.a0, s.c3.a1, s.c0.a2, s.c1.a3), Column(s.c3.a0, s.c0.a1, s.c1.a2, s.c2.a3))
  }

  function Sum(a: bv8, b: bv8, c: bv8, d: bv8): bv8 {
    Plus(Plus(Plus(a, b), c), d)
  }

  /** The product with {03}x^3 + {01}x^2 + {01}x + {02}. */
  function MixColumn(c: Column): Column {
    Column(Sum(Mul(2, c.a0), Mul(3, c.a1), c.a2, c.a3),
           Sum(c.a0, Mul(2, c.a1), Mul(3, c.a2), c.a3),
           Sum(c.a0, c.a1, Mul(2, c.a2), Mul(3, c.a3)),
           Sum(Mul(3, c.a0), c.a1, c.a2, Mul(2, c.a3)))
  }

  function MixColumns(s: Block): Block {
    Block(MixColumn(s.c0), MixColumn(s.c1), MixColumn(s.c2), MixColumn(s.c3))
  }

  function AddColumn(a: Column, b: Column): Column {
    Column(Plus(a.a0, b.a0), Plus(a.a1, b.a1), Plus(a.a2, b.a2), Plus(a.a3, b.a3))
  }

  function AddRoundKey(s: Block, k: Block): Block {
    Block(AddColumn(s.c0, k.c0), AddColumn(s.c1, k.c1), AddColumn(s.c2, k.c2), AddColumn(s.c3, k.c3))
  }

  // ------------------------------------------------------------------
  // Key expansion, section 5.2
  // ------------------------------------------------------------------

  function RotWord(c: Column): Column {
    Column(c.a1, c.a2, c.a3, c.a0)
  }

  /** x^(i-1) */
  function RconByte(i: nat): bv8 {
    if i <= 1 then 1 else XTime(RconByte(i - 1))
  }

  function Rcon(i: nat): Column {
    Column(RconByte(i), 0, 0, 0)
  }

  predicate KeySize(key: seq<bv8>) {
    |key| == 16 || |key| == 24 || |key| == 32
  }

  function KeyColumn(key: seq<bv8>, i: nat): Column
    requires 4 * i + 4 <= |key|
  {
    Column(key[4 * i], key[4 * i + 1], key[4 * i + 2], key[4 * i + 3])
  }

  /** The key's length in words. */
  function Nk(key: seq<bv8>): (nk: nat)
    requires KeySize(key)
    ensures 4 * nk == |key|
  {
    if |key| == 16 then 4 else if |key| == 24 then 6 else 8
  }

  /** The word w[i] of the expanded key. */
  ghost function KeyWord(key: seq<bv8>, i: nat): Column
    requires KeySize(key)
  {
    var nk := Nk(key);
    if i < nk then KeyColumn(key, i)
    else
      var temp := KeyWord(key, i - 1);
      AddColumn(KeyWord(key, i - nk),
        if i % nk == 0 then AddColumn(SubWord(RotWord(temp)), Rcon(i / nk))
        else if nk > 6 && i % nk == 4 then SubWord(temp)
        else temp)
  }

  ghost function RoundKey(key: seq<bv8>, r: nat): Block
    requires KeySize(key)
  {
    Block(KeyWord(key, 4 * r), KeyWord(key, 4 * r + 1), KeyWord(key, 4 * r + 2), KeyWord(key, 4 * r + 3))
  }

  /** Nr, figure 4: ten rounds, two more for every eight bytes of key over sixteen. */
  function Rounds(key: seq<bv8>): nat
    requires KeySize(key)
  {
    Nk(key) + 6
  }

  // ------------------------------------------------------------------
  // The cipher, figure 5
  // ------------------------------------------------------------------

  ghost function SubShift(s: Block): Block {
    ShiftRows(SubBytes(s))
  }

  /** The state after r full rounds. */
  ghost function AfterRounds(key: seq<bv8>, input: Block, r: nat): Block
    requires KeySize(key)
  {
    if r == 0 then AddRoundKey(input, RoundKey(key, 0))
    else AddRoundKey(MixColumns(SubShift(AfterRounds(key, input, r - 1))), RoundKey(key, r))
  }

  ghost function Cipher(key: seq<bv8>, input: Block): Block
    requires KeySize(key)
  {
    AddRoundKey(SubShift(AfterRounds(key, input, Rounds(key) - 1)), RoundKey(key, Rounds(key)))
  }

  // ------------------------------------------------------------------
  // Inverses, section 5.3
  // ------------------------------------------------------------------

  ghost function InvSubWord(c: Column): Column {
    Column(InvSBox(c.a0), InvSBox(c.a1), InvSBox(c.a2), InvSBox(c.a3))
  }

  ghost function InvSubBytes(s: Block): Block {
    Block(InvSubWord(s.c0), InvSubWord(s.c1), InvSubWord(s.c2), InvSubWord(s.c3))
  }

  function InvShiftRows(s: Block): Block {
    Block(Column(s.c0.a0, s.c3.a1, s.c2.a2, s.c1.a3), Column(s.c1.a0, s.c0.a1, s.c3.a2, s.c2.a3),
          Column(s.c2.a0, s.c1.a1, s.c0.a2, s.c3.a3), Column(s.c3.a0, s.c2.a1, s.c1.a2, s.c0.a3))
  }

  /** The product with {0b}x^3 + {0d}x^2 + {09}x + {0e}. */
  function InvMixColumn(c: Column): Column {
    Column(Sum(Mul(14, c.a0), Mul(11, c.a1), Mul(13, c.a2), Mul(9, c.a3)),
           Sum(Mul(9, c.a0), Mul(14, c.a1), Mul(11, c.a2), Mul(13, c.a3)),
           Sum(Mul(13, c.a0), Mul(9, c.a1), Mul(14, c.a2), Mul(11, c.a3)),
           Sum(Mul(11, c.a0), Mul(13, c.a1), Mul(9, c.a2), Mul(14, c.a3)))
  }

  function InvMixColumns(s: Block): Block {
    Block(InvMixColumn(s.c0), InvMixColumn(s.c1), InvMixColumn(s.c2), InvMixColumn(s.c3))
  }

  ghost function InvSubShift(s: Block): Block {
    InvShiftRows(InvSubBytes(s))
  }

  lemma SubShiftInverts(s: Block)
    ensures InvSubShift(SubShift(s)) == s
  {
    hide SBox, InvSBox;
    SubWordInverts(s.c0);
    SubWordInverts(s.c1);
    SubWordInverts(s.c2);
    SubWordInverts(s.c3);
  }

  lemma SubWordInverts(c: Column)
    ensures InvSubWord(SubWord(c)) == c
  {
    hide SBox, InvSBox;
    SBoxInverts(c.a0);
    SBoxInverts(c.a1);
    SBoxInverts(c.a2);
    SBoxInverts(c.a3);
  }

  /** Multiplication by a constant of four bits. */
  lemma MulSmall(a: bv8, b: bv8)
    requires a < 16
    ensures var (b1, a1) := (XTime(b), Half(a)); var (b2, a2) := (XTime(b1), Half(a1));
      var (b3, a3) := (XTime(b2), Half(a2));
      Mul(a, b) == Plus(Times(a, b), Plus(Times(a1, b1), Plus(Times(a2, b2), Times(a3, b3))))
  {
    hide Mul, XTime, Plus;
    var (b1, a1) := (XTime(b), Half(a)); var (b2, a2) := (XTime(b1), Half(a1)); var (b3, a3) := (XTime(b2), Half(a2));
    MulIs(a, b);
    assert Half(a3) == 0;
    PlusZero(0);
    PlusZero(Times(a3, b3));
  }

  lemma MulByNine(b: bv8)
    ensures var b2 := XTime(b); var b4 := XTime(b2); var b8 := XTime(b4);
      && Mul(9, b) == Plus(b, b8) && Mul(11, b) == Plus(b, Plus(b2, b8))
      && Mul(13, b) == Plus(b, Plus(b4, b8)) && Mul(14, b) == Plus(b2, Plus(b4, b8))
  {
    hide Mul, XTime, Plus;
    var b2 := XTime(b); var b4 := XTime(b2); var b8 := XTime(b4);
    MulSmall(9, b);
    MulSmall(11, b);
    MulSmall(13, b);
    MulSmall(14, b);
    PlusZero(b8);
    PlusZero(Plus(b4, b8));
    PlusZero(Plus(b2, Plus(b4, b8)));
  }

  // ------------------------------------------------------------------
  // InvMixColumns undoes MixColumns
  // ------------------------------------------------------------------

  lemma MulSum(k: bv8, a: bv8, b: bv8, c: bv8, d: bv8)
    ensures Mul(k, Sum(a, b, c, d)) == Sum(Mul(k, a), Mul(k, b), Mul(k, c), Mul(k, d))
  {
    hide Mul, Plus;
    MulPlus(k, Plus(Plus(a, b), c), d);
    MulPlus(k, Plus(a, b), c);
    MulPlus(k, a, b);
  }

  /** A sum of sums, by columns. */
  lemma SumSwap(a: Column, b: Column, c: Column, d: Column)
    ensures Sum(Sum(a.a0, a.a1, a.a2, a.a3), Sum(b.a0, b.a1, b.a2, b.a3), Sum(c.a0, c.a1, c.a2, c.a3), Sum(d.a0, d.a1, d.a2, d.a3))
      == Sum(Sum(a.a0, b.a0, c.a0, d.a0), Sum(a.a1, b.a1, c.a1, d.a1), Sum(a.a2, b.a2, c.a2, d.a2), Sum(a.a3, b.a3, c.a3, d.a3))
  {
    hide Plus;
    SumPair(a, b);
    SumPair(Column(Plus(a.a0, b.a0), Plus(a.a1, b.a1), Plus(a.a2, b.a2), Plus(a.a3, b.a3)), c);
    SumPair(Column(Plus(Plus(a.a0, b.a0), c.a0), Plus(Plus(a.a1, b.a1), c.a1), Plus(Plus(a.a2, b.a2), c.a2), Plus(Plus(a.a3, b.a3), c.a3)), d);
  }

  lemma SumPair(a: Column, b: Column)
    ensures Plus(Sum(a.a0, a.a1, a.a2, a.a3), Sum(b.a0, b.a1, b.a2, b.a3))
      == Sum(Plus(a.a0, b.a0), Plus(a.a1, b.a1), Plus(a.a2, b.a2), Plus(a.a3, b.a3))
  {
    hide Plus;
    PlusSwap(Plus(Plus(a.a0, a.a1), a.a2), a.a3, Plus(Plus(b.a0, b.a1), b.a2), b.a3);
    PlusSwap(Plus(a.a0, a.a1), a.a2, Plus(b.a0, b.a1), b.a2);
    PlusSwap(a.a0, a.a1, b.a0, b.a1);
  }

  lemma InvMixPlus(a: Column, b: Column)
    ensures InvMixColumn(AddColumn(a, b)) == AddColumn(InvMixColumn(a), InvMixColumn(b))
  {
    hide Mul, Plus;
    RowPlus(14, 11, 13, 9, a, b);
    RowPlus(9, 14, 11, 13, a, b);
    RowPlus(13, 9, 14, 11, a, b);
    RowPlus(11, 13, 9, 14, a, b);
  }

  lemma RowPlus(p: bv8, q: bv8, r: bv8, s: bv8, a: Column, b: Column)
    ensures Sum(Mul(p, Plus(a.a0, b.a0)), Mul(q, Plus(a.a1, b.a1)), Mul(r, Plus(a.a2, b.a2)), Mul(s, Plus(a.a3, b.a3)))
      == Plus(Sum(Mul(p, a.a0), Mul(q, a.a1), Mul(r, a.a2), Mul(s, a.a3)),
              Sum(Mul(p, b.a0), Mul(q, b.a1), Mul(r, b.a2), Mul(s, b.a3)))
  {
    hide Mul, Plus;
    MulPlus(p, a.a0, b.a0);
    MulPlus(q, a.a1, b.a1);
    MulPlus(r, a.a2, b.a2);
    MulPlus(s, a.a3, b.a3);
    SumPair(Column(Mul(p, a.a0), Mul(q, a.a1), Mul(r, a.a2), Mul(s, a.a3)),
            Column(Mul(p, b.a0), Mul(q, b.a1), Mul(r, b.a2), Mul(s, b.a3)));
  }

  lemma MulSumLeft(p: bv8, q: bv8, r: bv8, s: bv8, b: bv8)
    ensures Sum(Mul(p, b), Mul(q, b), Mul(r, b), Mul(s, b)) == Mul(Sum(p, q, r, s), b)
  {
    hide Mul, Plus;
    MulPlusLeft(p, q, b);
    MulPlusLeft(Plus(p, q), r, b);
    MulPlusLeft(Plus(Plus(p, q), r), s, b);
  }

  lemma MatrixProducts()
    ensures Mul(14, 2) == 28 && Mul(9, 3) == 27 && Mul(14, 3) == 18 && Mul(11, 2) == 22
    ensures Mul(11, 3) == 29 && Mul(13, 2) == 26 && Mul(13, 3) == 23 && Mul(9, 2) == 18
  {
    hide Mul;
    MulIs(14, 2);
    MulIs(9, 3);
    MulIs(14, 3);
    MulIs(11, 2);
    MulIs(11, 3);
    MulIs(13, 2);
    MulIs(13, 3);
    MulIs(9, 2);
  }

  lemma MatrixSums()
    ensures Sum(28, 11, 13, 27) == 1 && Sum(18, 22, 13, 9) == 0 && Sum(14, 29, 26, 9) == 0 && Sum(14, 11, 23, 18) == 0
  {}

  lemma MulUnits(b: bv8)
    ensures Mul(1, b) == b && Mul(0, b) == 0 && Mul(b, 0) == 0
  {
    hide Mul, MulBits;
    MulIs(1, b);
    MulIs(0, b);
    MulZero(b);
  }

  /** A row of one matrix times a column of the other, for one byte. */
  lemma InverseRow(b: bv8)
    ensures Sum(Mul(14, Mul(2, b)), Mul(11, b), Mul(13, b), Mul(9, Mul(3, b))) == b
    ensures Sum(Mul(14, Mul(3, b)), Mul(11, Mul(2, b)), Mul(13, b), Mul(9, b)) == 0
    ensures Sum(Mul(14, b), Mul(11, Mul(3, b)), Mul(13, Mul(2, b)), Mul(9, b)) == 0
    ensures Sum(Mul(14, b), Mul(11, b), Mul(13, Mul(3, b)), Mul(9, Mul(2, b))) == 0
  {
    hide Mul, Sum;
    MatrixProducts();
    MatrixSums();
    MulAssoc(14, 2, b);
    MulAssoc(14, 3, b);
    MulAssoc(11, 2, b);
    MulAssoc(11, 3, b);
    MulAssoc(13, 2, b);
    MulAssoc(13, 3, b);
    MulAssoc(9, 2, b);
    MulAssoc(9, 3, b);
    MulSumLeft(28, 11, 13, 27, b);
    MulSumLeft(18, 22, 13, 9, b);
    MulSumLeft(14, 29, 26, 9, b);
    MulSumLeft(14, 11, 23, 18, b);
    MulUnits(b);
  }

  /** The first byte of the product; the others are the same with the bytes rotated. */
  lemma InvMixMixFirst(c: Column)
    ensures InvMixColumn(MixColumn(c)).a0 == c.a0
  {
    hide Mul, Sum;
    var m := MixColumn(c);
    MulSum(14, Mul(2, c.a0), Mul(3, c.a1), c.a2, c.a3);
    MulSum(11, c.a0, Mul(2, c.a1), Mul(3, c.a2), c.a3);
    MulSum(13, c.a0, c.a1, Mul(2, c.a2), Mul(3, c.a3));
    MulSum(9, Mul(3, c.a0), c.a1, c.a2, Mul(2, c.a3));
    SumSwap(Column(Mul(14, Mul(2, c.a0)), Mul(14, Mul(3, c.a1)), Mul(14, c.a2), Mul(14, c.a3)),
            Column(Mul(11, c.a0), Mul(11, Mul(2, c.a1)), Mul(11, Mul(3, c.a2)), Mul(11, c.a3)),
            Column(Mul(13, c.a0), Mul(13, c.a1), Mul(13, Mul(2, c.a2)), Mul(13, Mul(3, c.a3))),
            Column(Mul(9, Mul(3, c.a0)), Mul(9, c.a1), Mul(9, c.a2), Mul(9, Mul(2, c.a3))));
    InverseRow(c.a0);
    InverseRow(c.a1);
    InverseRow(c.a2);
    InverseRow(c.a3);
    SumZero(c.a0);
  }

  lemma SumZero(a: bv8)
    ensures Sum(a, 0, 0, 0) == a
  {}

  lemma SumRotate(a: bv8, b: bv8, c: bv8, d: bv8)
    ensures Sum(a, b, c, d) == Sum(b, c, d, a)
  {}

  lemma MixRotates(c: Column)
    ensures MixColumn(RotWord(c)) == RotWord(MixColumn(c)) && InvMixColumn(RotWord(c)) == RotWord(InvMixColumn(c))
  {
    hide Mul, Sum;
    SumRotate(Mul(2, c.a0), Mul(3, c.a1), c.a2, c.a3);
    SumRotate(c.a0, Mul(2, c.a1), Mul(3, c.a2), c.a3);
    SumRotate(c.a0, c.a1, Mul(2, c.a2), Mul(3, c.a3));
    SumRotate(Mul(3, c.a0), c.a1, c.a2, Mul(2, c.a3));
    SumRotate(Mul(14, c.a0), Mul(11, c.a1), Mul(13, c.a2), Mul(9, c.a3));
    SumRotate(Mul(9, c.a0), Mul(14, c.a1), Mul(11, c.a2), Mul(13, c.a3));
    SumRotate(Mul(13, c.a0), Mul(9, c.a1), Mul(14, c.a2), Mul(11, c.a3));
    SumRotate(Mul(11, c.a0), Mul(13, c.a1), Mul(9, c.a2), Mul(14, c.a3));
  }

  lemma InvMixMix(c: Column)
    ensures InvMixColumn(MixColumn(c)) == c
  {
    hide MixColumn, InvMixColumn;
    var c1 := RotWord(c); var c2 := RotWord(c1); var c3 := RotWord(c2);
    InvMixMixFirst(c);
    InvMixMixFirst(c1);
    InvMixMixFirst(c2);
    InvMixMixFirst(c3);
    MixRotates(c);
    MixRotates(c1);
    MixRotates(c2);
    MixRotates(MixColumn(c));
    MixRotates(MixColumn(c1));
    MixRotates(MixColumn(c2));
  }

  /** The words of block r of the key schedule for decryption, section 5.3.5. */
  ghost function InvRoundKey(key: seq<bv8>, r: nat): Block
    requires KeySize(key)
  {
    if r == 0 || r == Rounds(key) then RoundKey(key, r) else InvMixColumns(RoundKey(key, r))
  }

  /** The state of the equivalent inverse cipher, figure 15, after j rounds. */
  ghost function InvAfterRounds(key: seq<bv8>, input: Block, j: nat): Block
    requires KeySize(key) && j < Rounds(key)
  {
    if j == 0 then AddRoundKey(input, InvRoundKey(key, Rounds(key)))
    else AddRoundKey(InvMixColumns(InvSubShift(InvAfterRounds(key, input, j - 1))), InvRoundKey(key, Rounds(key) - j))
  }

  ghost function InvCipher(key: seq<bv8>, input: Block): Block
    requires KeySize(key)
  {
    AddRoundKey(InvSubShift(InvAfterRounds(key, input, Rounds(key) - 1)), InvRoundKey(key, 0))
  }

  lemma AddTwice(s: Block, k: Block)
    ensures AddRoundKey(AddRoundKey(s, k), k) == s
  {
    hide AddColumn;
    AddColumnTwice(s.c0, k.c0);
    AddColumnTwice(s.c1, k.c1);
    AddColumnTwice(s.c2, k.c2);
    AddColumnTwice(s.c3, k.c3);
  }

  lemma AddColumnTwice(a: Column, b: Column)
    ensures AddColumn(AddColumn(a, b), b) == a
  {
    hide Plus;
    PlusTwice(a.a0, b.a0);
    PlusTwice(a.a1, b.a1);
    PlusTwice(a.a2, b.a2);
    PlusTwice(a.a3, b.a3);
  }

  lemma PlusTwice(a: bv8, b: bv8)
    ensures Plus(Plus(a, b), b) == a
  {}

  lemma InvMixBlocks(s: Block, k: Block)
    ensures InvMixColumns(AddRoundKey(s, k)) == AddRoundKey(InvMixColumns(s), InvMixColumns(k))
    ensures InvMixColumns(MixColumns(s)) == s
  {
    hide AddColumn, InvMixColumn, MixColumn;
    InvMixPlus(s.c0, k.c0);
    InvMixPlus(s.c1, k.c1);
    InvMixPlus(s.c2, k.c2);
    InvMixPlus(s.c3, k.c3);
    InvMixMix(s.c0);
    InvMixMix(s.c1);
    InvMixMix(s.c2);
    InvMixMix(s.c3);
  }

  /** After j rounds back, what is left of the encryption is a substitution and a shift. */
  lemma {:induction false} RoundsBack(key: seq<bv8>, input: Block, j: nat)
    requires KeySize(key) && j < Rounds(key)
    ensures InvAfterRounds(key, Cipher(key, input), j) == SubShift(AfterRounds(key, input, Rounds(key) - 1 - j))
  {
    hide SubShift, InvSubShift, InvMixColumns, MixColumns, AddRoundKey, RoundKey, KeySize;
    var n := Rounds(key);
    if j == 0 {
      AddTwice(SubShift(AfterRounds(key, input, n - 1)), RoundKey(key, n));
    } else {
      RoundsBack(key, input, j - 1);
      var m := n - j;
      var s, k := AfterRounds(key, input, m - 1), RoundKey(key, m);
      SubShiftInverts(AfterRounds(key, input, m));
      InvMixBlocks(MixColumns(SubShift(s)), k);
      InvMixBlocks(SubShift(s), k);
      AddTwice(SubShift(s), InvMixColumns(k));
    }
  }

  /** Decryption undoes encryption, for every key and every block. */
  lemma Inverts(key: seq<bv8>, input: Block)
    requires KeySize(key)
    ensures InvCipher(key, Cipher(key, input)) == input
  {
    hide SubShift, InvSubShift, MixColumns, InvMixColumns, AddRoundKey, RoundKey, Cipher, InvAfterRounds, KeySize;
    RoundsBack(key, input, Rounds(key) - 1);
    SubShiftInverts(AfterRounds(key, input, 0));
    AddTwice(input, RoundKey(key, 0));
  }
}
