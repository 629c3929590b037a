/** Michael: the context of michael_mic.c, against section 8.3.2.3 of IEEE 802.11i-2004. */
module Michael {
  import opened HashStream

  datatype Key = Key(l: bv32, r: bv32)

  function XSwap(x: bv32): bv32 {
    ((x & 0x00ff00ff) << 8) | ((x & 0xff00ff00) >> 8)
  }

  /** michael_block, the block function of the standard */
  function Block(k: Key): Key {
    var r1 := k.r ^ k.l.RotateLeft(17);
    var l1 := k.l + r1;
    var r2 := r1 ^ XSwap(l1);
    var l2 := l1 + r2;
    var r3 := r2 ^ l2.RotateLeft(3);
    var l3 := l2 + r3;
    var r4 := r3 ^ l3.RotateRight(2);
    Key(l3 + r4, r4)
  }

  /** get_le32 */
  function Le32(b0: bv8, b1: bv8, b2: bv8, b3: bv8): bv32 {
    (b0 as bv32) | ((b1 as bv32) << 8) | ((b2 as bv32) << 16) | ((b3 as bv32) << 24)
  }

  function Mix(k: Key, w: bv32): Key {
    Block(Key(k.l ^ w, k.r))
  }

  /** One word of the message. */
  function Absorb4(k: Key, b: Bytes): Key {
    if |b| != 4 then k else Mix(k, Le32(b[0], b[1], b[2], b[3]))
  }

  /** 0x5a, and between four and seven zeros. */
  function Pad(m: Bytes): (p: Bytes)
    ensures |p| % 4 == 0
  {
    m + [0x5a] + Zeros(7 - |m| % 4)
  }

  function PutLe32(w: bv32): Bytes {
    [(w & 0xff) as bv8, ((w >> 8) & 0xff) as bv8, ((w >> 16) & 0xff) as bv8, ((w >> 24) & 0xff) as bv8]
  }

  function Digest(k: Key): Bytes {
    PutLe32(k.l) + PutLe32(k.r)
  }

  function Hash(key: Key, m: Bytes): Bytes {
    Digest(Absorb(Absorb4, 4, key, Pad(m)))
  }

  // ------------------------------------------------------------------
  // A known answer
  // ------------------------------------------------------------------

  lemma BothWords()
    ensures Mix(Key(0, 0), 0x5a) == Key(0xc000134d, 0xeaa1301e)
    ensures Mix(Key(0xc000134d, 0xeaa1301e), 0) == Key(0x1c5c9282, 0xb830d1a1)
  {}

  lemma WordsOf()
    ensures Le32(0x5a, 0, 0, 0) == 0x5a && Le32(0, 0, 0, 0) == 0
  {}

  lemma BytesOf()
    ensures PutLe32(0x1c5c9282) == [0x82, 0x92, 0x5c, 0x1c] && PutLe32(0xb830d1a1) == [0xa1, 0xd1, 0x30, 0xb8]
  {}

  /** The first of the standard's test vectors: the empty message under the key of zeros. */
  lemma EmptyMessage()
    ensures Hash(Key(0, 0), []) == [0x82, 0x92, 0x5c, 0x1c, 0xa1, 0xd1, 0x30, 0xb8]
  {
    hide Mix, Le32, PutLe32;
    BothWords();
    WordsOf();
    BytesOf();
    var p := Pad([]);
    assert p == [0x5a, 0, 0, 0, 0, 0, 0, 0];
    assert p[..4] == [0x5a, 0, 0, 0] && p[4..][..4] == [0, 0, 0, 0] && p[4..][4..] == [];
    var k := Absorb4(Key(0, 0), p[..4]);
    assert Absorb(Absorb4, 4, Key(0, 0), p) == Absorb(Absorb4, 4, k, p[4..]);
    assert Absorb(Absorb4, 4, k, p[4..]) == Absorb(Absorb4, 4, Absorb4(k, p[4..][..4]), p[4..][4..]);
  }

  class Ctx {
    var pending: Bytes
    var pendingLen: nat
    var key: Key               // l and r
    ghost var initial: Key     // as michael_setkey left them
    ghost var message: Bytes

    ghost predicate Valid()
      reads this
    {
      Holds(Absorb4, 4, initial, message, key, pending) && pendingLen == |message| % 4
    }

    /** michael_setkey and michael_init */
    constructor (key: Key)
      ensures Valid() && message == [] && initial == key
    {
      this.key, initial, message, pendingLen := key, key, [], 0;
      pending := Zeros(4);
      new;
      HoldsNothing(Absorb4, 4, key, pending);
    }

    /** michael_update */
    method Update(data: Bytes)
      requires Valid()
      modifies this`pending, this`pendingLen, this`key, this`message
      ensures Valid() && message == old(message) + data
    {
      hide Holds, Absorb4, Mix;
      ghost var m0 := message;
      HoldsSize(Absorb4, 4, initial, m0, key, pending);
      message := m0 + data;
      var i: nat := 0;
      if pendingLen != 0 {
        var flen := 4 - pendingLen;
        if flen > |data| {
          flen := |data|;
        }
        i := flen;
        if pendingLen + flen < 4 {
          HoldsPart(Absorb4, 4, initial, m0, key, pending, data[..flen]);
          assert data[..flen] == data;
        } else {
          HoldsFull(Absorb4, 4, initial, m0, key, pending, data[..flen], Splice(pending, pendingLen, data[..flen]));
        }
        pending := Splice(pending, pendingLen, data[..flen]);
        pendingLen := pendingLen + flen;
        if pendingLen < 4 {
          return;
        }
        AbsorbWord(key, pending);
        key := Mix(key, Le32(pending[0], pending[1], pending[2], pending[3]));
        pendingLen := 0;
      } else {
        assert m0 + data[..0] == m0;
      }
      Words(data, m0, i);
    }

    /** The whole words of the data from i on, and the rest of them into the buffer. */
    method Words(data: Bytes, ghost m0: Bytes, i0: nat)
      requires i0 <= |data| && Holds(Absorb4, 4, initial, m0 + data[..i0], key, pending)
      requires Whole(|m0 + data[..i0]|, 4) && pendingLen == 0
      modifies this`pending, this`pendingLen, this`key
      ensures Holds(Absorb4, 4, initial, m0 + data, key, pending) && pendingLen == |m0 + data| % 4
    {
      hide Holds, Absorb4, Mix;
      var i := i0;
      while |data| - i >= 4
        invariant i <= |data| && Holds(Absorb4, 4, initial, m0 + data[..i], key, pending)
        invariant Whole(|m0 + data[..i]|, 4) && pendingLen == 0
      {
        HoldsBlock(Absorb4, 4, initial, m0 + data[..i], key, pending, data[i..i + 4]);
        Taken(m0, data, i, i + 4);
        AbsorbWord(key, data[i..i + 4]);
        key := Mix(key, Le32(data[i], data[i + 1], data[i + 2], data[i + 3]));
        i := i + 4;
      }
      HoldsRest(Absorb4, 4, initial, m0 + data[..i], key, pending, data[i..]);
      Taken(m0, data, i, |data|);
      assert data[..|data|] == data && data[i..|data|] == data[i..];
      if |data| - i > 0 {
        pendingLen := |data| - i;
        pending := Splice(pending, 0, data[i..]);
      } else {
        assert data[..i] == data;
      }
    }

    /** michael_final */
    method Final() returns (out: Bytes)
      requires Valid()
      modifies this`key
      ensures out == Hash(old(initial), old(message))
    {
      hide Holds, Absorb4, Mix, Digest, Le32;
      HoldsSize(Absorb4, 4, initial, message, key, pending);
      var last :=
        if pendingLen == 0 then Le32(0x5a, 0, 0, 0)
        else if pendingLen == 1 then Le32(pending[0], 0x5a, 0, 0)
        else if pendingLen == 2 then Le32(pending[0], pending[1], 0x5a, 0)
        else Le32(pending[0], pending[1], pending[2], 0x5a);
      LastWords(initial, message, key, pending, last);
      key := Mix(key, last);
      key := Mix(key, 0);
      out := Digest(key);
    }
  }

  lemma AbsorbWord(k: Key, b: Bytes)
    requires |b| == 4
    ensures Absorb4(k, b) == Mix(k, Le32(b[0], b[1], b[2], b[3]))
  {}

  lemma ZeroWord()
    ensures Le32(0, 0, 0, 0) == 0
  {}

  /** The last two words complete the padded message. */
  lemma LastWords(initial: Key, m: Bytes, k: Key, pending: Bytes, last: bv32)
    requires Holds(Absorb4, 4, initial, m, k, pending) && |pending| == 4
    requires last == (if |m| % 4 == 0 then Le32(0x5a, 0, 0, 0)
                      else if |m| % 4 == 1 then Le32(pending[0], 0x5a, 0, 0)
                      else if |m| % 4 == 2 then Le32(pending[0], pending[1], 0x5a, 0)
                      else Le32(pending[0], pending[1], pending[2], 0x5a))
    ensures Mix(Mix(k, last), 0) == Absorb(Absorb4, 4, initial, Pad(m))
  {
    hide Holds, Absorb4, Mix, Le32, Absorb;
    var n := |m| % 4;
    var d1, d2 := [0x5a] + Zeros(3 - n), Zeros(4);
    HoldsFull(Absorb4, 4, initial, m, k, pending, d1, pending);
    var w := Splice(pending, n, d1);
    AbsorbWord(k, w);
    HoldsBlock(Absorb4, 4, initial, m + d1, Absorb4(k, w), pending, d2);
    AbsorbWord(Absorb4(k, w), d2);
    ZeroWord();
    AbsorbIs(Absorb4, 4, initial, m + d1 + d2, Absorb4(Absorb4(k, w), d2), pending);
    ZerosAdd(3 - n, 4);
    assert m + d1 + d2 == Pad(m);
  }
}
