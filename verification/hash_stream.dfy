/** Hashing a message block by block, and what a context in the middle of it holds. */
module HashStream {
  import opened Common

  type Bytes = seq<bv8>

  /** The chaining value after the whole blocks of m. */
  function Absorb<S>(f: (S, Bytes) -> S, b: Pos, h: S, m: Bytes): S
    decreases |m|
  {
    if |m| < b then h else Absorb(f, b, f(h, m[..b]), m[b..])
  }

  lemma ModLess(n: nat, b: Pos)
    requires n < b
    ensures n % b == n
  {
    DivModUnique(n, b, 0, n);
  }

  lemma ModStep(n: nat, b: Pos)
    requires n >= b
    ensures (n - b) % b == n % b && n % b < b
  {
    var q, r := n / b, n % b;
    assert n == q * b + r;
    assert n - b == (q - 1) * b + r;
    DivModUnique(n - b, b, q - 1, r);
  }

  lemma ModAdd(n: nat, d: nat, b: Pos)
    ensures (n + d) % b == (n % b + d) % b
  {
    var q, r := n / b, n % b;
    assert n == q * b + r;
    var q2, r2 := (r + d) / b, (r + d) % b;
    assert r + d == q2 * b + r2;
    assert n + d == (q + q2) * b + r2;
    DivModUnique(n + d, b, q + q2, r2);
  }

  /** The bytes after the last whole block. */
  function Tail(b: Pos, m: Bytes): (t: Bytes)
    ensures |t| < b && |t| == |m| % b
    decreases |m|
  {
    if |m| < b then ModLess(|m|, b); m else ModStep(|m|, b); Tail(b, m[b..])
  }

  lemma {:induction false} AbsorbConcat<S>(f: (S, Bytes) -> S, b: Pos, h: S, m: Bytes, d: Bytes)
    ensures Absorb(f, b, h, m + d) == Absorb(f, b, Absorb(f, b, h, m), Tail(b, m) + d)
    ensures Tail(b, m + d) == Tail(b, Tail(b, m) + d)
    decreases |m|
  {
    if |m| >= b {
      assert (m + d)[..b] == m[..b] && (m + d)[b..] == m[b..] + d;
      AbsorbConcat(f, b, f(h, m[..b]), m[b..], d);
    }
  }

  /** A context with chaining value h and buffer buf has seen exactly m. */
  ghost predicate Holds<S(!new)>(f: (S, Bytes) -> S, b: Pos, h0: S, m: Bytes, h: S, buf: Bytes) {
    |buf| == b && h == Absorb(f, b, h0, m) && buf[..|Tail(b, m)|] == Tail(b, m)
  }

  /** memcpy(&buf[at], d, |d|) */
  function Splice(buf: Bytes, at: nat, d: Bytes): (r: Bytes)
    requires at + |d| <= |buf|
    ensures |r| == |buf|
  {
    buf[..at] + d + buf[at + |d|..]
  }

  lemma HoldsNothing<S(!new)>(f: (S, Bytes) -> S, b: Pos, h0: S, buf: Bytes)
    requires |buf| == b
    ensures Holds(f, b, h0, [], h0, buf)
  {}

  /** Data that do not fill the buffer are put into it. */
  lemma HoldsPart<S(!new)>(f: (S, Bytes) -> S, b: Pos, h0: S, m: Bytes, h: S, buf: Bytes, d: Bytes)
    requires Holds(f, b, h0, m, h, buf) && |m| % b + |d| < b
    ensures Holds(f, b, h0, m + d, h, Splice(buf, |m| % b, d))
  {
    AbsorbConcat(f, b, h0, m, d);
    var t := Tail(b, m);
    assert Tail(b, t + d) == t + d;
    assert Splice(buf, |t|, d)[..|t| + |d|] == t + d;
  }

  /** Data that fill the buffer exactly complete a block, whatever is left in the buffer then. */
  lemma HoldsFull<S(!new)>(f: (S, Bytes) -> S, b: Pos, h0: S, m: Bytes, h: S, buf: Bytes, d: Bytes, buf': Bytes)
    requires Holds(f, b, h0, m, h, buf) && |m| % b + |d| == b && |buf'| == b
    ensures (|m| + |d|) % b == 0
    ensures Holds(f, b, h0, m + d, f(h, Splice(buf, |m| % b, d)), buf')
  {
    AbsorbConcat(f, b, h0, m, d);
    var t := Tail(b, m);
    assert (t + d)[..b] == t + d && (t + d)[b..] == [];
    assert Splice(buf, |t|, d) == t + d;
    ModAdd(|m|, |d|, b);
    ModStep(b, b);
    ModLess(0, b);
  }

  /** A whole block straight from the data. */
  lemma HoldsBlock<S(!new)>(f: (S, Bytes) -> S, b: Pos, h0: S, m: Bytes, h: S, buf: Bytes, d: Bytes)
    requires Holds(f, b, h0, m, h, buf) && |m| % b == 0 && |d| == b
    ensures (|m| + |d|) % b == 0
    ensures Holds(f, b, h0, m + d, f(h, d), buf)
  {
    HoldsFull(f, b, h0, m, h, buf, d, buf);
    assert Splice(buf, 0, d) == d;
  }

  /** Multiples of the block size. */
  ghost predicate Whole(n: nat, b: Pos) {
    n % b == 0
  }

  /** A sum of type unsigned int. */
  function Wrap(x: nat): nat {
    x % 0x1_0000_0000
  }

  /** The data from i on, taken in after what came before. */
  lemma Taken(m: Bytes, d: Bytes, i: nat, j: nat)
    requires i <= j <= |d|
    ensures m + d[..i] + d[i..j] == m + d[..j]
  {
    assert d[..i] + d[i..j] == d[..j];
  }

  lemma HoldsSize<S(!new)>(f: (S, Bytes) -> S, b: Pos, h0: S, m: Bytes, h: S, buf: Bytes)
    requires Holds(f, b, h0, m, h, buf)
    ensures |buf| == b
  {}

  lemma AbsorbIs<S(!new)>(f: (S, Bytes) -> S, b: Pos, h0: S, m: Bytes, h: S, buf: Bytes)
    requires Holds(f, b, h0, m, h, buf)
    ensures h == Absorb(f, b, h0, m)
  {}

  /** At a block boundary the buffer's contents do not matter. */
  lemma HoldsAnyBuffer<S(!new)>(f: (S, Bytes) -> S, b: Pos, h0: S, m: Bytes, h: S, buf: Bytes)
    requires |m| % b == 0 && |buf| == b && h == Absorb(f, b, h0, m)
    ensures Holds(f, b, h0, m, h, buf)
  {}

  /** Data that do not fill a block, at a block boundary, go to the front of the buffer. */
  lemma HoldsRest<S(!new)>(f: (S, Bytes) -> S, b: Pos, h0: S, m: Bytes, h: S, buf: Bytes, d: Bytes)
    requires Holds(f, b, h0, m, h, buf) && Whole(|m|, b) && |d| < b
    ensures |buf| == b && Holds(f, b, h0, m + d, h, Splice(buf, 0, d))
  {
    HoldsPart(f, b, h0, m, h, buf, d);
  }

  function Zeros(n: nat): (z: Bytes)
    ensures |z| == n
  {
    seq(n, _ => 0)
  }

  lemma ZerosAdd(a: nat, b: nat)
    ensures Zeros(a) + Zeros(b) == Zeros(a + b)
  {}

  function Low(x: nat): bv8 {
    (x % 256) as bv8
  }
}
