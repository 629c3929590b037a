/** Block devices and their partitions: exclusive claims, and the counting of opens. */
module BlockDev {
  import opened Common

  type Id = nat

  /** Whom bd_holder points to: someone who claimed the device, or bd_claim itself. */
  datatype Holder = Nobody | Partitioned | Real(id: nat)

  datatype Dev = Dev(holder: Holder, holders: int, openers: int, partCount: int, contains: Option<Id>)

  // ------------------------------------------------------------------
  // Sums over the partitions of a device
  // ------------------------------------------------------------------

  ghost function Sum(f: map<Id, nat>, keys: set<Id>): nat
    decreases |keys|
  {
    if keys == {} then 0
    else
      var k :| k in keys;
      (if k in f then f[k] else 0) + Sum(f, keys - {k})
  }

  function At(f: map<Id, nat>, k: Id): nat {
    if k in f then f[k] else 0
  }

  lemma {:induction false} SumWithout(f: map<Id, nat>, keys: set<Id>, k: Id)
    requires k in keys
    ensures Sum(f, keys) == At(f, k) + Sum(f, keys - {k})
    decreases |keys|
  {
    var j :| j in keys && Sum(f, keys) == At(f, j) + Sum(f, keys - {j});
    if j != k {
      SumWithout(f, keys - {j}, k);
      SumWithout(f, keys - {k}, j);
      assert keys - {j} - {k} == keys - {k} - {j};
    }
  }

  lemma {:induction false} SumSame(f: map<Id, nat>, g: map<Id, nat>, keys: set<Id>)
    requires forall k <- keys :: At(f, k) == At(g, k)
    ensures Sum(f, keys) == Sum(g, keys)
    decreases |keys|
  {
    if keys != {} {
      var k :| k in keys;
      SumWithout(f, keys, k);
      SumWithout(g, keys, k);
      SumSame(f, g, keys - {k});
    }
  }

  lemma SumUpdate(f: map<Id, nat>, keys: set<Id>, k: Id, v: nat)
    ensures Sum(f[k := v], keys) == Sum(f, keys) + (if k in keys then v - At(f, k) else 0)
  {
    var g := f[k := v];
    if k in keys {
      SumWithout(f, keys, k);
      SumWithout(g, keys, k);
      SumSame(f, g, keys - {k});
    } else {
      SumSame(f, g, keys);
    }
  }

  ghost function Positive(f: map<Id, nat>, keys: set<Id>): set<Id> {
    set k | k in keys && At(f, k) > 0
  }

  lemma PositiveUpdate(f: map<Id, nat>, keys: set<Id>, k: Id, v: nat)
    ensures |Positive(f[k := v], keys)| ==
      |Positive(f, keys)| + (if k in keys then (if v > 0 then 1 else 0) - (if At(f, k) > 0 then 1 else 0) else 0)
  {
    var p, q := Positive(f, keys), Positive(f[k := v], keys);
    assert p - {k} == q - {k};
    if k in p {
      assert |p| == |p - {k}| + 1;
    } else {
      assert p - {k} == p;
    }
    if k in q {
      assert |q| == |q - {k}| + 1;
    } else {
      assert q - {k} == q;
    }
  }

  lemma {:induction false} SumZero(f: map<Id, nat>, keys: set<Id>)
    ensures Sum(f, keys) == 0 <==> forall k <- keys :: At(f, k) == 0
    decreases |keys|
  {
    if keys != {} {
      var k :| k in keys;
      SumWithout(f, keys, k);
      SumZero(f, keys - {k});
      assert forall j <- keys :: j == k || j in keys - {k};
    }
  }

  // ------------------------------------------------------------------
  // Invariants
  // ------------------------------------------------------------------

  /** The devices; how often each is open and claimed by users, and by whom it is claimed. */
  datatype State = State(devs: map<Id, Dev>, opens: map<Id, nat>, claims: map<Id, nat>, owner: map<Id, nat>)

  /** The disks: each device belongs to a whole one, a whole one to itself. */
  ghost predicate Disks(devs: map<Id, Dev>, whole: Id -> Id) {
    forall d {:trigger whole(d)} :: d in devs ==> whole(d) in devs && whole(whole(d)) == whole(d)
  }

  ghost function Parts(devs: map<Id, Dev>, whole: Id -> Id, w: Id): set<Id> {
    set p | p in devs && p != w && whole(p) == w
  }

  /** An open device knows the whole one it lies on. */
  ghost predicate DevOk(s: State, whole: Id -> Id, d: Id) {
    && d in s.devs && d in s.opens && d in s.claims && s.claims[d] <= s.opens[d]
    && s.devs[d].openers >= 0 && s.devs[d].contains == (if s.devs[d].openers > 0 then Some(whole(d)) else None)
    && (s.claims[d] > 0 ==> d in s.owner && s.devs[d].holder == Real(s.owner[d]))
    && (if whole(d) == d then WholeOk(s, whole, d) else PartOk(s, d))
  }

  /** A partition counts its own opens and claims. */
  ghost predicate PartOk(s: State, p: Id)
    requires p in s.devs && p in s.opens && p in s.claims
  {
    && s.devs[p].openers == s.opens[p] && s.devs[p].partCount == 0
    && s.devs[p].holders == s.claims[p] && (s.claims[p] == 0 ==> s.devs[p].holder == Nobody)
  }

  /** A whole device counts, besides its own, those of its partitions. */
  ghost predicate WholeOk(s: State, whole: Id -> Id, w: Id)
    requires w in s.devs && w in s.opens && w in s.claims
  {
    var ps := Parts(s.devs, whole, w);
    && s.devs[w].openers == s.opens[w] + |Positive(s.opens, ps)|
    && s.devs[w].partCount == Sum(s.opens, ps)
    && s.devs[w].holders == 2 * s.claims[w] + Sum(s.claims, ps)
    && (s.claims[w] > 0 ==> Sum(s.claims, ps) == 0)
    && (s.claims[w] == 0 ==> s.devs[w].holder == if Sum(s.claims, ps) > 0 then Partitioned else Nobody)
  }

  ghost predicate Inv(s: State, whole: Id -> Id) {
    Disks(s.devs, whole) && forall d {:trigger DevOk(s, whole, d)} :: d in s.devs ==> DevOk(s, whole, d)
  }

  /** A whole device and one of its partitions are never claimed together, and no device has two holders. */
  lemma Exclusive(s: State, whole: Id -> Id, p: Id)
    requires Inv(s, whole) && p in s.devs && whole(p) != p
    ensures whole(p) in s.claims && p in s.claims && !(s.claims[whole(p)] > 0 && s.claims[p] > 0)
  {
    var w := whole(p);
    assert w in s.devs;
    assert DevOk(s, whole, p) && DevOk(s, whole, w);
    SumZero(s.claims, Parts(s.devs, whole, w));
    assert p in Parts(s.devs, whole, w);
  }

  // ------------------------------------------------------------------
  // Steps
  // ------------------------------------------------------------------

  lemma PartsSame(a: map<Id, Dev>, b: map<Id, Dev>, whole: Id -> Id, w: Id)
    requires a.Keys == b.Keys
    ensures Parts(a, whole, w) == Parts(b, whole, w)
  {}

  /** Whether bd_claim succeeds. */
  predicate Claimable(devs: map<Id, Dev>, d: Id, h: nat)
    requires d in devs && devs[d].contains.Some? && devs[d].contains.value in devs
  {
    var w := devs[d].contains.value;
    devs[d].holder == Real(h) ||
    (devs[d].holder == Nobody && (w == d || devs[w].holder == Partitioned || devs[w].holder == Nobody))
  }

  /** bd_claim, once it is decided: the whole device first, then the device itself. */
  function Claimed(devs: map<Id, Dev>, d: Id, w: Id, h: nat): (r: map<Id, Dev>)
    requires d in devs && w in devs
    ensures r.Keys == devs.Keys
  {
    var devs1 := devs[w := devs[w].(holders := devs[w].holders + 1, holder := Partitioned)];
    devs1[d := devs1[d].(holders := devs1[d].holders + 1, holder := Real(h))]
  }

  /** bd_release */
  function Released(devs: map<Id, Dev>, d: Id, w: Id): (r: map<Id, Dev>)
    requires d in devs && w in devs
    ensures r.Keys == devs.Keys
  {
    var devs1 := devs[w := Dropped(devs[w])];
    devs1[d := Dropped(devs1[d])]
  }

  function Dropped(x: Dev): Dev {
    x.(holders := x.holders - 1, holder := if x.holders - 1 == 0 then Nobody else x.holder)
  }

  lemma WholeIs(s: State, whole: Id -> Id, d: Id)
    requires Inv(s, whole) && d in s.devs
    ensures whole(d) in s.devs && whole(whole(d)) == whole(d) && DevOk(s, whole, d) && DevOk(s, whole, whole(d))
  {}

  /** A device whose own state and partitions have not changed. */
  lemma Elsewhere(s: State, t: State, whole: Id -> Id, x: Id)
    requires DevOk(s, whole, x) && t.devs.Keys == s.devs.Keys && t.devs[x] == s.devs[x]
    requires x in t.opens && x in t.claims && t.opens[x] == s.opens[x] && t.claims[x] == s.claims[x]
    requires s.claims[x] > 0 ==> x in t.owner && x in s.owner && t.owner[x] == s.owner[x]
    requires whole(x) == x ==> forall p <- Parts(s.devs, whole, x) ::
      At(t.opens, p) == At(s.opens, p) && At(t.claims, p) == At(s.claims, p)
    ensures DevOk(t, whole, x)
  {
    if whole(x) == x {
      var ps := Parts(s.devs, whole, x);
      PartsSame(s.devs, t.devs, whole, x);
      SumSame(s.opens, t.opens, ps);
      SumSame(s.claims, t.claims, ps);
      assert Positive(s.opens, ps) == Positive(t.opens, ps);
    }
  }

  lemma ClaimWhole(s: State, whole: Id -> Id, w: Id, h: nat)
    requires Inv(s, whole) && w in s.devs && whole(w) == w && w in s.claims && w in s.opens && s.claims[w] < s.opens[w]
    requires s.devs[w].holder == Real(h) || s.devs[w].holder == Nobody
    ensures DevOk(State(Claimed(s.devs, w, w, h), s.opens, s.claims[w := s.claims[w] + 1], s.owner[w := h]), whole, w)
  {
    var t := State(Claimed(s.devs, w, w, h), s.opens, s.claims[w := s.claims[w] + 1], s.owner[w := h]);
    var ps := Parts(s.devs, whole, w);
    assert DevOk(s, whole, w);
    PartsSame(s.devs, t.devs, whole, w);
    SumUpdate(s.claims, ps, w, s.claims[w] + 1);
  }

  lemma ClaimPart(s: State, whole: Id -> Id, p: Id, h: nat)
    requires Inv(s, whole) && p in s.devs && whole(p) != p && p in s.claims && p in s.opens && s.claims[p] < s.opens[p]
    requires whole(p) in s.devs && (s.devs[p].holder == Real(h) || s.devs[p].holder == Nobody)
    requires s.devs[whole(p)].holder == Partitioned || s.devs[whole(p)].holder == Nobody
    ensures var t := State(Claimed(s.devs, p, whole(p), h), s.opens, s.claims[p := s.claims[p] + 1], s.owner[p := h]);
      DevOk(t, whole, p) && DevOk(t, whole, whole(p))
  {
    var w := whole(p);
    var t := State(Claimed(s.devs, p, w, h), s.opens, s.claims[p := s.claims[p] + 1], s.owner[p := h]);
    var ps := Parts(s.devs, whole, w);
    WholeIs(s, whole, p);
    PartsSame(s.devs, t.devs, whole, w);
    assert p in ps;
    SumUpdate(s.claims, ps, p, s.claims[p] + 1);
  }

  lemma ReleaseWhole(s: State, whole: Id -> Id, w: Id)
    requires Inv(s, whole) && w in s.devs && whole(w) == w && w in s.claims && s.claims[w] > 0
    ensures DevOk(State(Released(s.devs, w, w), s.opens, s.claims[w := s.claims[w] - 1], s.owner), whole, w)
  {
    var t := State(Released(s.devs, w, w), s.opens, s.claims[w := s.claims[w] - 1], s.owner);
    var ps := Parts(s.devs, whole, w);
    assert DevOk(s, whole, w);
    PartsSame(s.devs, t.devs, whole, w);
    SumUpdate(s.claims, ps, w, s.claims[w] - 1);
  }

  lemma ReleasePart(s: State, whole: Id -> Id, p: Id)
    requires Inv(s, whole) && p in s.devs && whole(p) != p && p in s.claims && s.claims[p] > 0 && whole(p) in s.devs
    ensures var t := State(Released(s.devs, p, whole(p)), s.opens, s.claims[p := s.claims[p] - 1], s.owner);
      DevOk(t, whole, p) && DevOk(t, whole, whole(p))
  {
    var w := whole(p);
    var t := State(Released(s.devs, p, w), s.opens, s.claims[p := s.claims[p] - 1], s.owner);
    var ps := Parts(s.devs, whole, w);
    WholeIs(s, whole, p);
    PartsSame(s.devs, t.devs, whole, w);
    assert p in ps;
    SumUpdate(s.claims, ps, p, s.claims[p] - 1);
    SumZero(s.claims, ps);
  }

  // ------------------------------------------------------------------
  // Opens and puts
  // ------------------------------------------------------------------

  /** One more opener of a whole device. */
  function Entered(x: Dev, w: Id): Dev {
    x.(openers := x.openers + 1, contains := Some(w))
  }

  /** One opener less; the last one forgets what contains the device. */
  function Left(x: Dev): Dev {
    x.(openers := x.openers - 1, contains := if x.openers - 1 == 0 then None else x.contains)
  }

  lemma OpenWhole(s: State, whole: Id -> Id, w: Id)
    requires Inv(s, whole) && w in s.devs && whole(w) == w && w in s.opens
    ensures DevOk(s.(devs := s.devs[w := Entered(s.devs[w], w)], opens := s.opens[w := s.opens[w] + 1]), whole, w)
  {
    var t := s.(devs := s.devs[w := Entered(s.devs[w], w)], opens := s.opens[w := s.opens[w] + 1]);
    var ps := Parts(s.devs, whole, w);
    assert DevOk(s, whole, w);
    PartsSame(s.devs, t.devs, whole, w);
    SumUpdate(s.opens, ps, w, s.opens[w] + 1);
    PositiveUpdate(s.opens, ps, w, s.opens[w] + 1);
  }

  lemma PutWhole(s: State, whole: Id -> Id, w: Id)
    requires Inv(s, whole) && w in s.devs && whole(w) == w && w in s.opens && w in s.claims && s.claims[w] < s.opens[w]
    ensures DevOk(s.(devs := s.devs[w := Left(s.devs[w])], opens := s.opens[w := s.opens[w] - 1]), whole, w)
  {
    var t := s.(devs := s.devs[w := Left(s.devs[w])], opens := s.opens[w := s.opens[w] - 1]);
    var ps := Parts(s.devs, whole, w);
    assert DevOk(s, whole, w);
    PartsSame(s.devs, t.devs, whole, w);
    SumUpdate(s.opens, ps, w, s.opens[w] - 1);
    PositiveUpdate(s.opens, ps, w, s.opens[w] - 1);
  }

  /** The first open of a partition opens its whole device, too. */
  function PartOpened(devs: map<Id, Dev>, p: Id, w: Id): (r: map<Id, Dev>)
    requires p in devs && w in devs
    ensures r.Keys == devs.Keys
  {
    var x := if devs[p].openers == 0 then Entered(devs[w], w) else devs[w];
    devs[w := x.(partCount := x.partCount + 1)][p := Entered(devs[p], w)]
  }

  /** The last put of a partition puts it, too. */
  function PartPut(devs: map<Id, Dev>, p: Id, w: Id): (r: map<Id, Dev>)
    requires p in devs && w in devs
    ensures r.Keys == devs.Keys
  {
    var x := devs[w].(partCount := devs[w].partCount - 1);
    devs[w := if devs[p].openers - 1 == 0 then Left(x) else x][p := Left(devs[p])]
  }

  lemma OpenPart(s: State, whole: Id -> Id, p: Id)
    requires Inv(s, whole) && p in s.devs && whole(p) != p && whole(p) in s.devs && p in s.opens
    ensures var t := s.(devs := PartOpened(s.devs, p, whole(p)), opens := s.opens[p := s.opens[p] + 1]);
      DevOk(t, whole, p) && DevOk(t, whole, whole(p))
  {
    var w := whole(p);
    var t := s.(devs := PartOpened(s.devs, p, w), opens := s.opens[p := s.opens[p] + 1]);
    var ps := Parts(s.devs, whole, w);
    WholeIs(s, whole, p);
    PartsSame(s.devs, t.devs, whole, w);
    assert p in ps;
    SumUpdate(s.opens, ps, p, s.opens[p] + 1);
    PositiveUpdate(s.opens, ps, p, s.opens[p] + 1);
  }

  lemma PutPart(s: State, whole: Id -> Id, p: Id)
    requires Inv(s, whole) && p in s.devs && whole(p) != p && whole(p) in s.devs && p in s.opens && p in s.claims
    requires s.claims[p] < s.opens[p]
    ensures var t := s.(devs := PartPut(s.devs, p, whole(p)), opens := s.opens[p := s.opens[p] - 1]);
      DevOk(t, whole, p) && DevOk(t, whole, whole(p))
  {
    var w := whole(p);
    var t := s.(devs := PartPut(s.devs, p, w), opens := s.opens[p := s.opens[p] - 1]);
    var ps := Parts(s.devs, whole, w);
    WholeIs(s, whole, p);
    PartsSame(s.devs, t.devs, whole, w);
    assert p in ps;
    SumUpdate(s.opens, ps, p, s.opens[p] - 1);
    PositiveUpdate(s.opens, ps, p, s.opens[p] - 1);
    SumWithout(s.opens, ps, p);
    assert p in Positive(s.opens, ps);
  }

  /** Only one disk is touched. */
  ghost predicate Touches(s: State, t: State, whole: Id -> Id, d: Id) {
    && t.devs.Keys == s.devs.Keys
    && (forall x <- s.devs :: x != d && x != whole(d) ==> t.devs[x] == s.devs[x])
    && (forall x :: x != d ==> (x in s.opens ==> x in t.opens && t.opens[x] == s.opens[x])
                               && (x in s.claims ==> x in t.claims && t.claims[x] == s.claims[x])
                               && (x in s.owner ==> x in t.owner && t.owner[x] == s.owner[x]))
  }

  /** What is left to show after a step on d is how it stands with d and its whole device. */
  lemma StepKeepsInv(s: State, t: State, whole: Id -> Id, d: Id)
    requires Inv(s, whole) && d in s.devs && Touches(s, t, whole, d) && DevOk(t, whole, d) && DevOk(t, whole, whole(d))
    ensures Inv(t, whole)
  {
    WholeIs(s, whole, d);
    forall x | x in t.devs ensures DevOk(t, whole, x) {
      if x != d && x != whole(d) {
        assert DevOk(s, whole, x);
        forall p <- Parts(s.devs, whole, x)
          ensures At(t.opens, p) == At(s.opens, p) && At(t.claims, p) == At(s.claims, p)
        {
          assert DevOk(s, whole, p);
        }
        Elsewhere(s, t, whole, x);
      }
    }
  }

  /** The records of the devices are determined by who has opened and claimed what. */
  lemma DevsDetermined(s: State, t: State, whole: Id -> Id)
    requires Inv(s, whole) && Inv(t, whole) && s.devs.Keys == t.devs.Keys
    requires s.opens == t.opens && s.claims == t.claims && s.owner == t.owner
    ensures s.devs == t.devs
  {
    hide Sum, Positive, Parts;
    forall d <- s.devs ensures t.devs[d] == s.devs[d] {
      assert DevOk(s, whole, d) && DevOk(t, whole, d);
      PartsSame(s.devs, t.devs, whole, d);
    }
  }

  class Devices {
    const whole: Id -> Id
    var devs: map<Id, Dev>
    ghost var opens: map<Id, nat>
    ghost var claims: map<Id, nat>
    ghost var owner: map<Id, nat>

    ghost function Now(): State
      reads this
    {
      State(devs, opens, claims, owner)
    }

    ghost predicate Valid()
      reads this
    {
      Inv(Now(), whole)
    }

    /** Devices that nobody has opened yet. */
    constructor (ids: set<Id>, whole: Id -> Id)
      requires forall d <- ids :: whole(d) in ids && whole(whole(d)) == whole(d)
      ensures Valid() && devs.Keys == ids && this.whole == whole
    {
      this.whole := whole;
      devs := map d | d in ids :: Dev(Nobody, 0, 0, 0, None);
      opens := map d | d in ids :: 0;
      claims := map d | d in ids :: 0;
      owner := map[];
      new;
      forall d | d in devs ensures DevOk(Now(), whole, d) {
        var ps := Parts(devs, whole, d);
        SumZero(opens, ps);
        SumZero(claims, ps);
        assert Positive(opens, ps) == {};
      }
    }

    /** The first half of bd_claim. */
    method Decide(d: Id, h: nat) returns (ok: bool)
      requires d in devs && devs[d].contains.Some? && devs[d].contains.value in devs
      ensures ok == Claimable(devs, d, h)
    {
      var w := devs[d].contains.value;
      if devs[d].holder == Real(h) {
        ok := true;
      } else if devs[d].holder != Nobody {
        ok := false;
      } else if w == d {
        ok := true;
      } else if devs[w].holder == Partitioned {
        ok := true;
      } else if devs[w].holder != Nobody {
        ok := false;
      } else {
        ok := true;
      }
    }

    /** bd_claim, by the owner of an open of d. */
    method Claim(d: Id, h: nat) returns (ok: bool)
      requires Valid() && d in devs && d in opens && d in claims && claims[d] < opens[d]
      modifies this`devs, this`claims, this`owner
      ensures Valid() && devs.Keys == old(devs).Keys && (ok <==> MayClaim(old(Now()), whole, d, h))
      ensures ok ==> claims == old(claims)[d := old(claims)[d] + 1] && owner == old(owner)[d := h]
      ensures !ok ==> devs == old(devs) && claims == old(claims) && owner == old(owner)
    {
      hide Inv, DevOk, Parts, Sum, MayClaim, Touches, Claimable;
      ghost var s := Now();
      ContainsIs(s, whole, d);
      var w := devs[d].contains.value;
      ok := Decide(d, h);
      ClaimDecided(s, whole, d, h);
      if ok {
        ClaimKeeps(s, whole, d, h);
        devs := devs[w := devs[w].(holders := devs[w].holders + 1, holder := Partitioned)];
        devs := devs[d := devs[d].(holders := devs[d].holders + 1, holder := Real(h))];
        claims := claims[d := claims[d] + 1];
        owner := owner[d := h];
      }
    }

    /** bd_release, once for each successful claim. */
    method Release(d: Id)
      requires Valid() && d in devs && d in claims && claims[d] > 0
      modifies this`devs, this`claims
      ensures Valid() && devs.Keys == old(devs).Keys && claims == old(claims)[d := old(claims)[d] - 1]
    {
      hide Inv;
      ghost var s := Now();
      WholeIs(s, whole, d);
      var w := devs[d].contains.value;
      if w == d {
        ReleaseWhole(s, whole, d);
      } else {
        ReleasePart(s, whole, d);
      }
      devs := devs[w := Dropped(devs[w])];
      devs := devs[d := Dropped(devs[d])];
      claims := claims[d := claims[d] - 1];
      StepKeepsInv(s, Now(), whole, d);
    }

    /** do_open of a whole device; `works` is what its driver's open says. */
    method OpenDisk(w: Id, works: bool) returns (ok: bool)
      requires w in devs && (devs[w].openers == 0 <==> devs[w].contains == None) && devs[w].openers >= 0
      requires devs[w].openers > 0 ==> devs[w].contains == Some(w)
      modifies this`devs
      ensures ok == works && devs == if ok then old(devs)[w := Entered(old(devs)[w], w)] else old(devs)
    {
      ghost var devs0 := devs;
      if devs[w].openers == 0 {
        devs := devs[w := devs[w].(contains := Some(w))];
        if !works {
          devs := devs[w := devs[w].(contains := None)];
          assert devs == devs0;
          return false;
        }
      } else if !works {
        return false;
      }
      devs := devs[w := devs[w].(openers := devs[w].openers + 1)];
      assert devs == devs0[w := Entered(devs0[w], w)];
      return true;
    }

    /** blkdev_put of a whole device */
    method PutDisk(w: Id)
      requires w in devs
      modifies this`devs
      ensures devs == old(devs)[w := Left(old(devs)[w])]
    {
      devs := devs[w := devs[w].(openers := devs[w].openers - 1)];
      if devs[w].openers == 0 {
        devs := devs[w := devs[w].(contains := None)];
      }
    }

    /**
      do_open. There may be no such disk; the driver's open may fail; the whole
      device may not be had; the partition may have gone. Whatever fails, all
      devices are as they were.
    */
    method Open(d: Id, found: bool, works: bool, had: bool, there: bool) returns (ok: bool)
      requires Valid() && d in devs && d in opens
      modifies this`devs, this`opens
      ensures Valid() && devs.Keys == old(devs).Keys
      ensures ok ==> opens == old(opens)[d := old(opens)[d] + 1]
      ensures !ok ==> devs == old(devs) && opens == old(opens)
      ensures ok <==> found && (if whole(d) == d then works else old(opens)[d] > 0 || (had && works && there))
    {
      hide Inv, DevOk, Parts, Sum, Positive;
      ghost var s := Now();
      OpenersAre(s, whole, d);
      if !found {
        return false;
      }
      if whole(d) == d {
        ok := OpenDisk(d, works);
        if ok {
          OpenWholeKeeps(s, whole, d);
        }
      } else if devs[d].openers == 0 {
        ok := OpenFirst(d, whole(d), works, had, there);
        if ok {
          OpenPartKeeps(s, whole, d);
        }
      } else {
        var w := devs[d].contains.value;
        OpenPartKeeps(s, whole, d);
        devs := devs[w := devs[w].(partCount := devs[w].partCount + 1)];
        devs := devs[d := devs[d].(openers := devs[d].openers + 1)];
        assert devs == PartOpened(s.devs, d, w);
        ok := true;
      }
      if ok {
        opens := opens[d := opens[d] + 1];
      }
    }

    /** do_open of a partition that is not open yet */
    method OpenFirst(p: Id, w: Id, works: bool, had: bool, there: bool) returns (ok: bool)
      requires p in devs && w in devs && p != w && devs[p].openers == 0 && devs[p].contains == None
      requires (devs[w].openers == 0 <==> devs[w].contains == None) && devs[w].openers >= 0
      requires devs[w].openers > 0 ==> devs[w].contains == Some(w)
      modifies this`devs
      ensures ok == (had && works && there)
      ensures devs == if ok then PartOpened(old(devs), p, w) else old(devs)
    {
      ghost var devs0 := devs;
      devs := devs[p := devs[p].(contains := Some(p))];
      ok := false;
      if had {
        ok := OpenDisk(w, works);
        if ok {
          devs := devs[p := devs[p].(contains := Some(w))];
          devs := devs[w := devs[w].(partCount := devs[w].partCount + 1)];
          if !there {
            devs := devs[w := devs[w].(partCount := devs[w].partCount - 1)];
            ok := false;
          }
        }
      }
      if !ok {
        if devs[p].contains != Some(p) {
          PutDisk(devs[p].contains.value);
        }
        devs := devs[p := devs[p].(contains := None)];
        assert devs == devs0;
        return;
      }
      devs := devs[p := devs[p].(openers := devs[p].openers + 1)];
      assert devs == PartOpened(devs0, p, w);
    }

    /** blkdev_put, by the owner of an open that it has released its claim on. */
    method Put(d: Id)
      requires Valid() && d in devs && d in opens && d in claims && claims[d] < opens[d]
      modifies this`devs, this`opens
      ensures Valid() && devs.Keys == old(devs).Keys && opens == old(opens)[d := old(opens)[d] - 1]
    {
      hide Inv, DevOk, Parts, Sum, Positive;
      ghost var s := Now();
      ContainsIs(s, whole, d);
      PutKeeps(s, whole, d);
      var w := devs[d].contains.value;
      if w == d {
        PutDisk(d);
      } else {
        devs := devs[d := devs[d].(openers := devs[d].openers - 1)];
        devs := devs[w := devs[w].(partCount := devs[w].partCount - 1)];
        if devs[d].openers == 0 {
          PutDisk(w);
          devs := devs[d := devs[d].(contains := None)];
        }
        assert devs == PartPut(s.devs, d, w);
      }
      opens := opens[d := opens[d] - 1];
    }

    /** blkdev_open with O_EXCL: opened and claimed, or neither. */
    method OpenExclusive(d: Id, h: nat, found: bool, works: bool, had: bool, there: bool) returns (ok: bool)
      requires Valid() && d in devs && d in opens && d in claims
      modifies this`devs, this`opens, this`claims, this`owner
      ensures Valid() && devs.Keys == old(devs).Keys
      ensures ok <==>
        && found && (if whole(d) == d then works else old(opens)[d] > 0 || (had && works && there))
        && MayClaim(old(Now()), whole, d, h)
      ensures ok ==> opens == old(opens)[d := old(opens)[d] + 1]
      ensures ok ==> claims == old(claims)[d := old(claims)[d] + 1] && owner == old(owner)[d := h]
      ensures !ok ==> devs == old(devs) && opens == old(opens) && claims == old(claims) && owner == old(owner)
    {
      hide Inv, MayClaim;
      ghost var s := Now();
      ClaimsBound(s, whole, d);
      ok := Open(d, found, works, had, there);
      if ok {
        SameMayClaim(s, Now(), whole, d, h);
        ok := Claim(d, h);
        if !ok {
          Put(d);
          assert opens == s.opens;
          DevsDetermined(s, Now(), whole);
        }
      }
    }
  }

  /** d is claimed by h already; or it is not claimed, nor anything it lies on or that lies on it. */
  ghost predicate MayClaim(s: State, whole: Id -> Id, d: Id, h: nat) {
    && d in s.claims && whole(d) in s.claims
    && if s.claims[d] > 0 then d in s.owner && s.owner[d] == h
       else if whole(d) == d then Sum(s.claims, Parts(s.devs, whole, d)) == 0
       else s.claims[whole(d)] == 0
  }

  lemma SameMayClaim(s: State, t: State, whole: Id -> Id, d: Id, h: nat)
    requires s.devs.Keys == t.devs.Keys && s.claims == t.claims && s.owner == t.owner
    ensures MayClaim(s, whole, d, h) <==> MayClaim(t, whole, d, h)
  {
    PartsSame(s.devs, t.devs, whole, d);
  }

  lemma ContainsIs(s: State, whole: Id -> Id, d: Id)
    requires Inv(s, whole) && d in s.devs && d in s.opens && s.opens[d] > 0
    ensures whole(d) in s.devs && s.devs[d].contains == Some(whole(d))
  {
    WholeIs(s, whole, d);
  }

  /** The decision of bd_claim, in terms of who has claimed what. */
  lemma ClaimDecided(s: State, whole: Id -> Id, d: Id, h: nat)
    requires Inv(s, whole) && d in s.devs && d in s.claims
    requires whole(d) in s.devs && s.devs[d].contains == Some(whole(d))
    ensures Claimable(s.devs, d, h) <==> MayClaim(s, whole, d, h)
  {
    WholeIs(s, whole, d);
    if whole(d) != d {
      var ps := Parts(s.devs, whole, whole(d));
      assert d in ps;
      SumWithout(s.claims, ps, d);
    }
  }

  lemma ClaimKeeps(s: State, whole: Id -> Id, d: Id, h: nat)
    requires Inv(s, whole) && d in s.devs && d in s.claims && d in s.opens && s.claims[d] < s.opens[d]
    requires whole(d) in s.devs && s.devs[d].contains == Some(whole(d)) && Claimable(s.devs, d, h)
    ensures Inv(State(Claimed(s.devs, d, whole(d), h), s.opens, s.claims[d := s.claims[d] + 1], s.owner[d := h]), whole)
  {
    hide Inv, DevOk;
    var t := State(Claimed(s.devs, d, whole(d), h), s.opens, s.claims[d := s.claims[d] + 1], s.owner[d := h]);
    if whole(d) == d {
      ClaimWhole(s, whole, d, h);
    } else {
      PartOfClaimed(s, whole, d, h);
      ClaimPart(s, whole, d, h);
    }
    StepKeepsInv(s, t, whole, d);
  }

  /** The holder of a whole device with a claimed partition is bd_claim. */
  lemma PartOfClaimed(s: State, whole: Id -> Id, p: Id, h: nat)
    requires Inv(s, whole) && p in s.devs && whole(p) != p && whole(p) in s.devs
    requires s.devs[p].contains == Some(whole(p)) && Claimable(s.devs, p, h)
    ensures s.devs[whole(p)].holder == Partitioned || s.devs[whole(p)].holder == Nobody
  {
    WholeIs(s, whole, p);
    var ps := Parts(s.devs, whole, whole(p));
    assert p in ps;
    SumWithout(s.claims, ps, p);
  }

  lemma ClaimsBound(s: State, whole: Id -> Id, d: Id)
    requires Inv(s, whole) && d in s.devs
    ensures d in s.opens && d in s.claims && s.claims[d] <= s.opens[d]
  {
    WholeIs(s, whole, d);
  }

  /** Who is open, and where. */
  lemma OpenersAre(s: State, whole: Id -> Id, d: Id)
    requires Inv(s, whole) && d in s.devs
    ensures d in s.opens && whole(d) in s.devs && s.devs[d].openers >= 0 && s.devs[whole(d)].openers >= 0
    ensures s.devs[d].contains == if s.devs[d].openers > 0 then Some(whole(d)) else None
    ensures s.devs[whole(d)].contains == if s.devs[whole(d)].openers > 0 then Some(whole(d)) else None
    ensures whole(d) != d ==> s.devs[d].openers == s.opens[d]
  {
    WholeIs(s, whole, d);
  }

  lemma OpenWholeKeeps(s: State, whole: Id -> Id, w: Id)
    requires Inv(s, whole) && w in s.devs && whole(w) == w && w in s.opens
    ensures Inv(s.(devs := s.devs[w := Entered(s.devs[w], w)], opens := s.opens[w := s.opens[w] + 1]), whole)
  {
    hide Inv, DevOk;
    OpenWhole(s, whole, w);
    StepKeepsInv(s, s.(devs := s.devs[w := Entered(s.devs[w], w)], opens := s.opens[w := s.opens[w] + 1]), whole, w);
  }

  lemma OpenPartKeeps(s: State, whole: Id -> Id, p: Id)
    requires Inv(s, whole) && p in s.devs && whole(p) != p && whole(p) in s.devs && p in s.opens
    ensures Inv(s.(devs := PartOpened(s.devs, p, whole(p)), opens := s.opens[p := s.opens[p] + 1]), whole)
  {
    hide Inv, DevOk;
    OpenPart(s, whole, p);
    StepKeepsInv(s, s.(devs := PartOpened(s.devs, p, whole(p)), opens := s.opens[p := s.opens[p] + 1]), whole, p);
  }

  lemma PutKeeps(s: State, whole: Id -> Id, d: Id)
    requires Inv(s, whole) && d in s.devs && whole(d) in s.devs && d in s.opens && d in s.claims && s.claims[d] < s.opens[d]
    ensures Inv(s.(devs := if whole(d) == d then s.devs[d := Left(s.devs[d])] else PartPut(s.devs, d, whole(d)),
                   opens := s.opens[d := s.opens[d] - 1]), whole)
  {
    hide Inv, DevOk;
    var t := s.(devs := if whole(d) == d then s.devs[d := Left(s.devs[d])] else PartPut(s.devs, d, whole(d)),
                opens := s.opens[d := s.opens[d] - 1]);
    if whole(d) == d {
      PutWhole(s, whole, d);
    } else {
      PutPart(s, whole, d);
    }
    StepKeepsInv(s, t, whole, d);
  }
}
