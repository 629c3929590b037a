/** gen_tabs: the tables the AES code works with, and what is in them. */
module AesTables {
  import opened AesField
  import opened AesSpec

  // ------------------------------------------------------------------
  // Bytes as numbers
  // ------------------------------------------------------------------

  function Nat(a: bv8): (n: nat)
    ensures n < 256
  {
    a as int
  }

  function Byte(n: nat): bv8 {
    if n == 0 then 0 else Next(Byte(n - 1))
  }

  lemma {:induction false} NatByte(n: nat)
    requires n < 256
    ensures Nat(Byte(n)) == n
  {
    hide Nat, Next;
    if n == 0 {
      NatZero(0);
    } else {
      NatByte(n - 1);
      Successor(Byte(n - 1));
    }
  }

  lemma NatInjective(a: bv8, b: bv8)
    requires Nat(a) == Nat(b)
    ensures a == b
  {}

  lemma ByteNat(a: bv8)
    ensures Byte(Nat(a)) == a
  {
    hide Nat, Byte;
    NatByte(Nat(a));
    NatInjective(Byte(Nat(a)), a);
  }

  lemma NatZero(a: bv8)
    ensures Nat(a) == 0 <==> a == 0
  {}

  /** Unsigned char arithmetic. */
  function Add(a: bv8, b: bv8): bv8 { a + b }
  function Next(a: bv8): bv8 { a + 1 }
  function Before(a: bv8): bv8 { a - 1 }

  lemma Successor(a: bv8)
    requires Nat(a) != 255
    ensures Nat(Next(a)) == Nat(a) + 1
  {}

  lemma SuccessorOfMax(a: bv8)
    requires Nat(a) == 255
    ensures Nat(Next(a)) == 0
  {}

  lemma Predecessor(a: bv8)
    requires Nat(a) != 0
    ensures Nat(Before(a)) == Nat(a) - 1
  {}

  lemma AddBefore(a: bv8, b: bv8)
    ensures Next(Add(a, Before(b))) == Add(a, b)
  {}

  lemma AddZero(a: bv8)
    ensures Add(a, 0) == a
  {}

  lemma {:induction false} AddSmall(a: bv8, b: bv8)
    requires Nat(a) + Nat(b) < 256
    ensures Nat(Add(a, b)) == Nat(a) + Nat(b)
    decreases Nat(b)
  {
    hide Nat, Add, Next, Before;
    if Nat(b) == 0 {
      NatZero(b);
      AddZero(a);
    } else {
      Predecessor(b);
      AddSmall(a, Before(b));
      AddBefore(a, b);
      Successor(Add(a, Before(b)));
    }
  }

  lemma {:induction false} AddLarge(a: bv8, b: bv8)
    requires Nat(a) + Nat(b) >= 256
    ensures Nat(Add(a, b)) == Nat(a) + Nat(b) - 256
    decreases Nat(b)
  {
    hide Nat, Add, Next, Before;
    Predecessor(b);
    AddBefore(a, b);
    if Nat(a) + Nat(b) == 256 {
      AddSmall(a, Before(b));
      SuccessorOfMax(Add(a, Before(b)));
    } else {
      AddLarge(a, Before(b));
      Successor(Add(a, Before(b)));
    }
  }

  /** 255 - a in an unsigned char */
  function Complement(a: bv8): bv8 { 255 - a }

  lemma ComplementIs(a: bv8)
    ensures Nat(Complement(a)) == 255 - Nat(a)
  {
    hide Nat, Add, Complement;
    AddComplement(a);
    if Nat(a) + Nat(Complement(a)) < 256 {
      AddSmall(a, Complement(a));
    } else {
      AddLarge(a, Complement(a));
    }
  }

  lemma AddComplement(a: bv8)
    ensures Nat(Add(a, Complement(a))) == 255
  {}

  /** Unsigned addition has wrapped around exactly if the sum is smaller than a summand. */
  predicate Less(a: bv8, b: bv8) { a < b }

  lemma Wrapped(a: bv8, b: bv8)
    ensures Less(Add(a, b), a) <==> Nat(a) + Nat(b) >= 256
  {}

  // ------------------------------------------------------------------
  // Words
  // ------------------------------------------------------------------

  function Xor(a: bv32, b: bv32): bv32 { a ^ b }

  function Join(b0: bv8, b1: bv8, b2: bv8, b3: bv8): bv32 {
    (b0 as bv32) | ((b1 as bv32) << 8) | ((b2 as bv32) << 16) | ((b3 as bv32) << 24)
  }

  /** A little-endian word. */
  function Pack(c: Column): bv32 {
    Join(c.a0, c.a1, c.a2, c.a3)
  }

  /** byte(w, 0) to byte(w, 3) */
  function Unpack(w: bv32): Column {
    Column((w & 0xff) as bv8, ((w >> 8) & 0xff) as bv8, ((w >> 16) & 0xff) as bv8, ((w >> 24) & 0xff) as bv8)
  }

  function Rotl(w: bv32, n: nat): bv32
    requires n <= 32
  {
    (w << n) | (w >> (32 - n))
  }

  function Rotr(w: bv32, n: nat): bv32
    requires n <= 32
  {
    (w >> n) | (w << (32 - n))
  }

  lemma UnpackPack(c: Column)
    ensures Unpack(Pack(c)) == c
  {}

  lemma PackUnpack(w: bv32)
    ensures Pack(Unpack(w)) == w
  {}

  lemma XorPack(a: Column, b: Column)
    ensures Xor(Pack(a), Pack(b)) == Pack(AddColumn(a, b))
  {}

  lemma Rotl8(c: Column)
    ensures Rotl(Pack(c), 8) == Pack(Column(c.a3, c.a0, c.a1, c.a2))
  {}

  lemma Rotl16(c: Column)
    ensures Rotl(Pack(c), 16) == Pack(Column(c.a2, c.a3, c.a0, c.a1))
  {}

  lemma Rotl24(c: Column)
    ensures Rotl(Pack(c), 24) == Pack(Column(c.a1, c.a2, c.a3, c.a0))
  {}

  lemma Rotr8(c: Column)
    ensures Rotr(Pack(c), 8) == Pack(Column(c.a1, c.a2, c.a3, c.a0))
  {}

  lemma Rotr16(c: Column)
    ensures Rotr(Pack(c), 16) == Pack(Column(c.a2, c.a3, c.a0, c.a1))
  {}

  lemma Rotr24(c: Column)
    ensures Rotr(Pack(c), 24) == Pack(Column(c.a3, c.a0, c.a1, c.a2))
  {}

  // ------------------------------------------------------------------
  // Logarithms
  // ------------------------------------------------------------------

  /** The entry of an array of 256 that a byte selects. */
  function At<T>(t: seq<T>, a: bv8): T
    requires |t| == 256
  {
    t[Nat(a)]
  }

  ghost predicate PowOk(pow: seq<bv8>, n: nat) {
    |pow| == 256 && n <= 256 && forall i {:trigger pow[i]} :: 0 <= i < n ==> pow[i] == Power(i)
  }

  ghost predicate LogAt(log: seq<bv8>, n: nat, a: bv8) {
    |log| == 256 && Nat(log[Nat(a)]) < n && Power(Nat(log[Nat(a)])) == a
  }

  ghost predicate LogOk(log: seq<bv8>, n: nat) {
    |log| == 256 && forall i: nat {:trigger Power(i)} :: i < n ==> LogAt(log, n, Power(i))
  }

  /** What gen_tabs makes of p to get the next entry. */
  function NextPower(p: bv8): bv8 {
    p ^ ((p << 1) ^ (if p & 0x80 != 0 then 0x1b else 0))
  }

  lemma NextPowerIs(i: nat)
    ensures NextPower(Power(i)) == Power(i + 1)
  {
    hide Power, NextPower;
    NextIsTriple(Power(i));
    PowerNext(i);
  }

  lemma NextIsTriple(p: bv8)
    ensures NextPower(p) == Triple(p)
  {}

  lemma PowerNext(i: nat)
    ensures Power(i + 1) == Triple(Power(i)) && Power(0) == 1
  {}

  lemma LogStep(log: seq<bv8>, i: nat)
    requires LogOk(log, i) && i < 256
    ensures LogOk(log[Nat(Power(i)) := Byte(i)], i + 1)
  {
    hide Power, Byte, Nat;
    NatByte(i);
    var log' := log[Nat(Power(i)) := Byte(i)];
    forall j: nat | j < i + 1 ensures LogAt(log', i + 1, Power(j)) {
      assert j < i ==> LogAt(log, i, Power(j));
      if Nat(Power(j)) == Nat(Power(i)) {
        NatInjective(Power(j), Power(i));
      }
    }
  }

  method GenLogs() returns (pow: seq<bv8>, log: seq<bv8>)
    ensures PowOk(pow, 256) && LogOk(log, 256)
  {
    hide Nat, Byte, Power, NextPower, LogOk;
    pow, log := seq(256, _ => 0), seq(256, _ => 0);
    PowerNext(0);
    assert LogOk(log, 0) by { LogsEmpty(log); }
    var i: nat, p: bv8 := 0, 1;
    while i < 256
      invariant i <= 256 && p == Power(i) && PowOk(pow, i) && |log| == 256 && LogOk(log, i)
    {
      LogStep(log, i);
      NextPowerIs(i);
      pow := pow[i := p];
      log := log[Nat(p) := Byte(i)];
      p := NextPower(p);
      i := i + 1;
    }
    LogOfOne(log);
    log := log[1 := 0];
  }

  lemma LogsEmpty(log: seq<bv8>)
    requires |log| == 256
    ensures LogOk(log, 0)
  {}

  lemma LogOfOne(log: seq<bv8>)
    requires LogOk(log, 256)
    ensures LogOk(log[1 := 0], 256)
  {
    hide Power, Nat;
    PowerNext(0);
    NatZero(0);
    NatOne();
    var log' := log[1 := 0];
    forall j: nat | j < 256 ensures LogAt(log', 256, Power(j)) {
      assert LogAt(log, 256, Power(j));
      if Nat(Power(j)) == 1 {
        NatInjective(Power(j), 1);
      }
    }
  }

  lemma NatOne()
    ensures Nat(1) == 1
  {}

  lemma InLog(log: seq<bv8>, a: bv8)
    requires LogOk(log, 256) && a != 0
    ensures |log| == 256 && Power(Nat(At(log, a))) == a
  {
    hide Power, Nat;
    var i := EveryByteIsPower(a);
    assert LogAt(log, 256, Power(i));
  }

  lemma InPow(pow: seq<bv8>, a: bv8)
    requires PowOk(pow, 256)
    ensures At(pow, a) == Power(Nat(a))
  {
    hide Power, Nat;
  }

  /** f_mult */
  function FMult(pow: seq<bv8>, log: seq<bv8>, a: bv8, b: bv8): bv8
    requires |pow| == 256 && |log| == 256
  {
    var aa := At(log, a);
    var cc := Add(aa, At(log, b));
    At(pow, if Less(cc, aa) then Next(cc) else cc)
  }

  /** Multiplication through logarithms is multiplication in the field. */
  lemma FMultIsMul(pow: seq<bv8>, log: seq<bv8>, a: bv8, b: bv8)
    requires PowOk(pow, 256) && LogOk(log, 256) && a != 0 && b != 0
    ensures FMult(pow, log, a, b) == Mul(a, b)
  {
    hide Power, Nat, Mul, LogOk, Add, Next, Less, At;
    InLog(log, a);
    InLog(log, b);
    var aa, bb := At(log, a), At(log, b);
    var cc := Add(aa, bb);
    InPow(pow, cc);
    InPow(pow, Next(cc));
    Wrapped(aa, bb);
    PowerAdd(Nat(aa), Nat(bb));
    if Less(cc, aa) {
      AddLarge(aa, bb);
      Successor(cc);
      PowerAround(Nat(aa) + Nat(bb) - 255);
    } else {
      AddSmall(aa, bb);
    }
  }

  /** ff_mult */
  function FfMult(pow: seq<bv8>, log: seq<bv8>, a: bv8, b: bv8): bv8
    requires |pow| == 256 && |log| == 256
  {
    if a != 0 && b != 0 then FMult(pow, log, a, b) else 0
  }

  lemma FfMultIsMul(pow: seq<bv8>, log: seq<bv8>, a: bv8, b: bv8)
    requires PowOk(pow, 256) && LogOk(log, 256) && a != 0
    ensures |log| == 256 && FfMult(pow, log, a, b) == Mul(a, b)
  {
    hide Power, Nat, Mul, FMult;
    if b == 0 {
      MulZero(a);
    } else {
      FMultIsMul(pow, log, a, b);
    }
  }

  // ------------------------------------------------------------------
  // The S-box
  // ------------------------------------------------------------------

  /** The affine transformation as gen_tabs computes it. */
  function Scramble(p: bv8): bv8 {
    var q := ((p >> 7) | (p << 1)) ^ ((p >> 6) | (p << 2));
    p ^ (0x63 ^ q ^ ((q >> 6) | (q << 2)))
  }

  lemma ScrambleIs(p: bv8)
    ensures Scramble(p) == Affine(p)
  {
    hide Affine;
    AffineIs(p);
  }

  /** The entry for i, from the tables of logarithms. */
  function SBoxEntry(pow: seq<bv8>, log: seq<bv8>, a: bv8): bv8
    requires |pow| == 256 && |log| == 256
  {
    Scramble(if a != 0 then At(pow, Complement(At(log, a))) else 0)
  }

  lemma SBoxEntryIs(pow: seq<bv8>, log: seq<bv8>, a: bv8)
    requires PowOk(pow, 256) && LogOk(log, 256)
    ensures |log| == 256 && SBoxEntry(pow, log, a) == SBox(a)
  {
    hide Power, Nat, Mul, LogOk, At, Complement, Scramble, Affine, Inverse;
    LogSize(log);
    if a != 0 {
      InLog(log, a);
      var l := At(log, a);
      ComplementIs(l);
      InPow(pow, Complement(l));
      PowerAdd(Nat(l), 255 - Nat(l));
      PowersOfThree();
      InverseUnique(a, Inverse(a), At(pow, Complement(l)));
    }
    ScrambleIs(Inverse(a));
  }

  lemma LogSize(log: seq<bv8>)
    requires LogOk(log, 256)
    ensures |log| == 256
  {}

  ghost predicate SbxOk(sbx: seq<bv8>, n: nat) {
    |sbx| == 256 && n <= 256 && forall i {:trigger sbx[i]} :: 0 <= i < n ==> sbx[i] == SBox(Byte(i))
  }

  ghost predicate IsbAt(isb: seq<bv8>, i: nat) {
    |isb| == 256 && isb[Nat(SBox(Byte(i)))] == Byte(i)
  }

  ghost predicate IsbOk(isb: seq<bv8>, n: nat) {
    |isb| == 256 && forall i {:trigger IsbAt(isb, i)} :: 0 <= i < n ==> IsbAt(isb, i)
  }

  lemma IsbStep(isb: seq<bv8>, i: nat)
    requires IsbOk(isb, i) && i < 256
    ensures IsbOk(isb[Nat(SBox(Byte(i))) := Byte(i)], i + 1)
  {
    hide SBox, Byte, Nat;
    var isb' := isb[Nat(SBox(Byte(i))) := Byte(i)];
    forall j | 0 <= j < i + 1 ensures IsbAt(isb', j) {
      if j < i {
        assert IsbAt(isb, j);
        SBoxesDiffer(i, j);
      }
    }
  }

  lemma SBoxesDiffer(i: nat, j: nat)
    requires j < i < 256
    ensures Nat(SBox(Byte(i))) != Nat(SBox(Byte(j)))
  {
    hide SBox, Byte, Nat, InvSBox;
    if Nat(SBox(Byte(i))) == Nat(SBox(Byte(j))) {
      NatInjective(SBox(Byte(i)), SBox(Byte(j)));
      SBoxInverts(Byte(i));
      SBoxInverts(Byte(j));
      NatByte(i);
      NatByte(j);
    }
  }

  method GenBoxes(pow: seq<bv8>, log: seq<bv8>) returns (sbx: seq<bv8>, isb: seq<bv8>)
    requires PowOk(pow, 256) && LogOk(log, 256)
    ensures SbxOk(sbx, 256) && IsbOk(isb, 256)
  {
    hide Nat, Byte, SBox, SBoxEntry, LogOk;
    LogSize(log);
    sbx, isb := seq(256, _ => 0), seq(256, _ => 0);
    var i: nat := 0;
    while i < 256
      invariant i <= 256 && SbxOk(sbx, i) && IsbOk(isb, i)
    {
      SBoxEntryIs(pow, log, Byte(i));
      IsbStep(isb, i);
      var p := SBoxEntry(pow, log, Byte(i));
      sbx := sbx[i := p];
      isb := isb[Nat(p) := Byte(i)];
      i := i + 1;
    }
  }

  lemma BoxesAre(sbx: seq<bv8>, isb: seq<bv8>, a: bv8)
    requires SbxOk(sbx, 256) && IsbOk(isb, 256)
    ensures At(sbx, a) == SBox(a) && At(isb, a) == InvSBox(a)
  {
    hide SBox, InvSBox, Byte, Nat;
    ByteNat(a);
    SBoxInverts(a);
    ByteNat(InvSBox(a));
    assert IsbAt(isb, Nat(InvSBox(a)));
  }

  // ------------------------------------------------------------------
  // The word tables
  // ------------------------------------------------------------------

  datatype Quad = Quad(t0: bv32, t1: bv32, t2: bv32, t3: bv32)

  /** fl_tab[k][i], ft_tab[k][i], il_tab[k][i] and it_tab[k][i] for k from 0 to 3 */
  datatype Row = Row(fl: Quad, ft: Quad, il: Quad, it: Quad)

  datatype Tables = Tables(rco: seq<bv32>, rows: seq<Row>)

  function Rotations(t: bv32): Quad {
    Quad(t, Rotl(t, 8), Rotl(t, 16), Rotl(t, 24))
  }

  function Spread(c: Column): Quad {
    Quad(Pack(c), Pack(Column(c.a3, c.a0, c.a1, c.a2)), Pack(Column(c.a2, c.a3, c.a0, c.a1)),
         Pack(Column(c.a1, c.a2, c.a3, c.a0)))
  }

  lemma RotationsAre(c: Column)
    ensures Rotations(Join(c.a0, c.a1, c.a2, c.a3)) == Spread(c)
  {
    hide Rotl, Join;
    Rotl8(c);
    Rotl16(c);
    Rotl24(c);
  }

  /** The last loop of gen_tabs for one i; s and v are its entries in the S-box and the inverse S-box. */
  function MakeRow(pow: seq<bv8>, log: seq<bv8>, s: bv8, v: bv8): Row
    requires |pow| == 256 && |log| == 256
  {
    Row(Rotations(Join(s, 0, 0, 0)),
        Rotations(Join(FfMult(pow, log, 2, s), s, s, FfMult(pow, log, 3, s))),
        Rotations(Join(v, 0, 0, 0)),
        Rotations(Join(FfMult(pow, log, 14, v), FfMult(pow, log, 9, v), FfMult(pow, log, 13, v), FfMult(pow, log, 11, v))))
  }

  ghost predicate RowOk(r: Row, a: bv8) {
    var (s, v) := (SBox(a), InvSBox(a));
    && r.fl == Spread(Column(s, 0, 0, 0))
    && r.ft == Spread(Column(Mul(2, s), s, s, Mul(3, s)))
    && r.il == Spread(Column(v, 0, 0, 0))
    && r.it == Spread(Column(Mul(14, v), Mul(9, v), Mul(13, v), Mul(11, v)))
  }

  lemma PackLow(b: bv8)
    ensures b as bv32 == Pack(Column(b, 0, 0, 0))
  {}

  lemma MakeRowOk(pow: seq<bv8>, log: seq<bv8>, a: bv8)
    requires PowOk(pow, 256) && LogOk(log, 256) && |pow| == 256 && |log| == 256
    ensures RowOk(MakeRow(pow, log, SBox(a), InvSBox(a)), a)
  {
    hide PowOk, LogOk, Rotations, Spread, Mul, SBox, InvSBox, FfMult, Join;
    var s, v := SBox(a), InvSBox(a);
    FfMultIsMul(pow, log, 2, s);
    FfMultIsMul(pow, log, 3, s);
    FfMultIsMul(pow, log, 14, v);
    FfMultIsMul(pow, log, 9, v);
    FfMultIsMul(pow, log, 13, v);
    FfMultIsMul(pow, log, 11, v);
    RotationsAre(Column(s, 0, 0, 0));
    RotationsAre(Column(Mul(2, s), s, s, Mul(3, s)));
    RotationsAre(Column(v, 0, 0, 0));
    RotationsAre(Column(Mul(14, v), Mul(9, v), Mul(13, v), Mul(11, v)));
  }

  ghost predicate RowsOk(rows: seq<Row>) {
    |rows| <= 256 && forall i {:trigger rows[i]} :: 0 <= i < |rows| ==> RowOk(rows[i], Byte(i))
  }

  /** rco_tab[i] is x^i in the low byte. */
  ghost predicate RcoOk(rco: seq<bv32>) {
    forall i {:trigger rco[i]} :: 0 <= i < |rco| ==> rco[i] == Pack(Rcon(i + 1))
  }

  ghost predicate TablesOk(t: Tables) {
    |t.rco| == 10 && RcoOk(t.rco) && |t.rows| == 256 && RowsOk(t.rows)
  }

  function NextConstant(p: bv8): bv8 {
    (p << 1) ^ (if p & 0x80 != 0 then 0x1b else 0)
  }

  lemma NextConstantIs(i: nat)
    ensures NextConstant(RconByte(i + 1)) == RconByte(i + 2) && RconByte(1) == 1
  {
    hide NextConstant, XTime;
    NextIsXTime(RconByte(i + 1));
  }

  lemma NextIsXTime(p: bv8)
    ensures NextConstant(p) == XTime(p)
  {}

  method GenConstants() returns (rco: seq<bv32>)
    ensures |rco| == 10 && RcoOk(rco)
  {
    hide NextConstant, Pack, RconByte;
    rco := [];
    NextConstantIs(0);
    var i: nat, p: bv8 := 0, 1;
    while i < 10
      invariant i <= 10 && |rco| == i && RcoOk(rco) && p == RconByte(i + 1)
    {
      NextConstantIs(i);
      PackLow(p);
      rco := rco + [p as bv32];
      p := NextConstant(p);
      i := i + 1;
    }
  }

  method GenTabs() returns (t: Tables)
    ensures TablesOk(t)
  {
    hide Nat, Byte, SBox, InvSBox, MakeRow, RowOk, PowOk, LogOk, SbxOk, IsbOk, At, RcoOk;
    var pow, log := GenLogs();
    var rco := GenConstants();
    var sbx, isb := GenBoxes(pow, log);
    Sizes(pow, log, sbx, isb);
    var i: nat, rows: seq<Row> := 0, [];
    while i < 256
      invariant i <= 256 && |rows| == i && RowsOk(rows)
    {
      BoxesAre(sbx, isb, Byte(i));
      MakeRowOk(pow, log, Byte(i));
      rows := rows + [MakeRow(pow, log, At(sbx, Byte(i)), At(isb, Byte(i)))];
      i := i + 1;
    }
    t := Tables(rco, rows);
  }

  lemma Sizes(pow: seq<bv8>, log: seq<bv8>, sbx: seq<bv8>, isb: seq<bv8>)
    requires PowOk(pow, 256) && LogOk(log, 256) && SbxOk(sbx, 256) && IsbOk(isb, 256)
    ensures |pow| == 256 && |log| == 256 && |sbx| == 256 && |isb| == 256
  {}

  /** What the code finds in the tables for a byte. */
  lemma RowFor(t: Tables, a: bv8)
    requires TablesOk(t)
    ensures RowOk(At(t.rows, a), a)
  {
    hide Nat, Byte, RowOk;
    ByteNat(a);
  }
}
