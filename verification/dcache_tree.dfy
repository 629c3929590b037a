/**
  The dentry tree: parents, lists of children, and the order in which the
  hand-made recursion of the dcache walks them.
*/
module DcacheTree {
  import opened Common

  type Id = nat

  /** A struct dentry, as far as the tree, the counts, the lists and the hash are concerned. */
  datatype Dentry = Dentry(
    count: int,
    parent: Id,
    subdirs: seq<Id>,
    referenced: bool,
    hashed: bool,
    bucket: Option<nat>,
    hash: nat,
    name: string,
    sb: nat,
    inode: Option<nat>,
    disconnected: bool,
    mounted: bool)

  ghost predicate NoDup<T>(q: seq<T>) {
    forall i, j :: 0 <= i < j < |q| ==> q[i] != q[j]
  }

  /**
    A dentry's children list holds exactly the dentries that name it as parent,
    and `rank` grows from parent to child, so that there is no cycle but the
    self-link of a root.
  */
  ghost predicate NodeOk(d: map<Id, Dentry>, rank: map<Id, nat>, x: Id) {
    && x in d && x in rank && d[x].parent in d && d[x].parent in rank
    && NoDup(d[x].subdirs)
    && (forall y <- d[x].subdirs :: y in d && d[y].parent == x && y != x)
    && (d[x].parent != x ==> x in d[d[x].parent].subdirs && rank[d[x].parent] < rank[x])
  }

  ghost predicate TreeOk(d: map<Id, Dentry>, rank: map<Id, nat>) {
    forall x {:trigger NodeOk(d, rank, x)} :: x in d ==> NodeOk(d, rank, x)
  }

  /** `a` is `y` or one of its ancestors. */
  ghost predicate Above(d: map<Id, Dentry>, rank: map<Id, nat>, a: Id, y: Id)
    requires TreeOk(d, rank) && y in d
    decreases if y in rank then rank[y] else 0
  {
    assert NodeOk(d, rank, y);
    y == a || (d[y].parent != y && Above(d, rank, a, d[y].parent))
  }

  lemma {:induction false} AboveRank(d: map<Id, Dentry>, rank: map<Id, nat>, a: Id, y: Id)
    requires TreeOk(d, rank) && y in d && Above(d, rank, a, y)
    ensures a in d && a in rank && y in rank && (a == y || rank[a] < rank[y])
    decreases if y in rank then rank[y] else 0
  {
    assert NodeOk(d, rank, y);
    if y != a {
      AboveRank(d, rank, a, d[y].parent);
    }
  }

  lemma {:induction false} AboveTransitive(d: map<Id, Dentry>, rank: map<Id, nat>, a: Id, b: Id, y: Id)
    requires TreeOk(d, rank) && y in d && b in d && Above(d, rank, b, y) && Above(d, rank, a, b)
    ensures Above(d, rank, a, y)
    decreases if y in rank then rank[y] else 0
  {
    assert NodeOk(d, rank, y);
    if y != b {
      AboveTransitive(d, rank, a, b, d[y].parent);
    }
  }

  /** The ancestors of one dentry lie on one line. */
  lemma {:induction false} AboveLinear(d: map<Id, Dentry>, rank: map<Id, nat>, a: Id, b: Id, y: Id)
    requires TreeOk(d, rank) && y in d && Above(d, rank, a, y) && Above(d, rank, b, y)
    ensures a in d && b in d && (Above(d, rank, a, b) || Above(d, rank, b, a))
    decreases if y in rank then rank[y] else 0
  {
    assert NodeOk(d, rank, y);
    AboveRank(d, rank, a, y);
    AboveRank(d, rank, b, y);
    if y != a && y != b {
      AboveLinear(d, rank, a, b, d[y].parent);
    }
  }

  // ------------------------------------------------------------------
  // Preorder
  // ------------------------------------------------------------------

  ghost predicate Bounded(d: map<Id, Dentry>, rank: map<Id, nat>, n: nat) {
    forall x :: x in d ==> x in rank && rank[x] < n
  }

  lemma {:induction false} BoundExists(d: map<Id, Dentry>, rank: map<Id, nat>, keys: set<Id>) returns (n: nat)
    requires keys <= d.Keys && forall x <- keys :: x in rank
    ensures forall x <- keys :: rank[x] < n
    decreases |keys|
  {
    if keys == {} {
      n := 0;
    } else {
      var x :| x in keys;
      n := BoundExists(d, rank, keys - {x});
      if n <= rank[x] { n := rank[x] + 1; }
    }
  }

  lemma TreeBounded(d: map<Id, Dentry>, rank: map<Id, nat>) returns (n: nat)
    requires TreeOk(d, rank)
    ensures Bounded(d, rank, n)
  {
    forall x <- d ensures x in rank { assert NodeOk(d, rank, x); }
    n := BoundExists(d, rank, d.Keys);
  }

  /** All strict descendants of x, each child followed by its own descendants. */
  ghost function Pre(d: map<Id, Dentry>, rank: map<Id, nat>, n: nat, x: Id): seq<Id>
    requires TreeOk(d, rank) && Bounded(d, rank, n) && x in d
    decreases n - rank[x], 0
  {
    ChildrenBelow(d, rank, n, x);
    PreList(d, rank, n, d[x].subdirs, n - rank[x] - 1)
  }

  ghost predicate Below(d: map<Id, Dentry>, rank: map<Id, nat>, n: nat, cs: seq<Id>, level: nat) {
    forall c <- cs :: c in d && c in rank && n - rank[c] <= level
  }

  ghost function PreList(d: map<Id, Dentry>, rank: map<Id, nat>, n: nat, cs: seq<Id>, level: nat): seq<Id>
    requires TreeOk(d, rank) && Bounded(d, rank, n) && Below(d, rank, n, cs, level)
    decreases level, |cs|
  {
    if cs == [] then []
    else [cs[0]] + Pre(d, rank, n, cs[0]) + PreList(d, rank, n, cs[1..], level)
  }

  lemma ChildrenBelow(d: map<Id, Dentry>, rank: map<Id, nat>, n: nat, x: Id)
    requires TreeOk(d, rank) && Bounded(d, rank, n) && x in d
    ensures Below(d, rank, n, d[x].subdirs, n - rank[x] - 1)
  {
    assert NodeOk(d, rank, x);
    forall c <- d[x].subdirs ensures c in d && rank[x] < rank[c] {
      assert NodeOk(d, rank, c);
    }
  }

  /** From an ancestor, the child on the way down. */
  lemma {:induction false} ChildTowards(d: map<Id, Dentry>, rank: map<Id, nat>, x: Id, y: Id) returns (c: Id)
    requires TreeOk(d, rank) && y in d && y != x && Above(d, rank, x, y)
    ensures x in d && c in d[x].subdirs && c in d && Above(d, rank, c, y)
    decreases if y in rank then rank[y] else 0
  {
    assert NodeOk(d, rank, y);
    if d[y].parent == x {
      c := y;
    } else {
      c := ChildTowards(d, rank, x, d[y].parent);
    }
  }

  lemma ChildIsBelow(d: map<Id, Dentry>, rank: map<Id, nat>, x: Id, c: Id, y: Id)
    requires TreeOk(d, rank) && x in d && c in d[x].subdirs && y in d && c in d && Above(d, rank, c, y)
    ensures y != x && Above(d, rank, x, y)
  {
    assert NodeOk(d, rank, x) && NodeOk(d, rank, c);
    assert Above(d, rank, x, x);
    AboveTransitive(d, rank, x, c, y);
    AboveRank(d, rank, c, y);
  }

  /** Preorder lists the strict descendants and nothing else. */
  lemma {:induction false} PreMembers(d: map<Id, Dentry>, rank: map<Id, nat>, n: nat, x: Id, y: Id)
    requires TreeOk(d, rank) && Bounded(d, rank, n) && x in d
    ensures y in Pre(d, rank, n, x) <==> y in d && y != x && Above(d, rank, x, y)
    decreases n - rank[x], 0
  {
    ChildrenBelow(d, rank, n, x);
    PreListMembers(d, rank, n, d[x].subdirs, n - rank[x] - 1, y);
    if y in d && y != x && Above(d, rank, x, y) {
      var c := ChildTowards(d, rank, x, y);
    }
    if c :| c in d[x].subdirs && y in d && c in d && Above(d, rank, c, y) {
      ChildIsBelow(d, rank, x, c, y);
    }
  }

  lemma {:induction false} PreListMembers(d: map<Id, Dentry>, rank: map<Id, nat>, n: nat, cs: seq<Id>, level: nat, y: Id)
    requires TreeOk(d, rank) && Bounded(d, rank, n) && Below(d, rank, n, cs, level)
    ensures y in PreList(d, rank, n, cs, level)
       <==> exists c :: c in cs && y in d && c in d && Above(d, rank, c, y)
    decreases level, |cs|
  {
    if cs != [] {
      PreMembers(d, rank, n, cs[0], y);
      PreListMembers(d, rank, n, cs[1..], level, y);
      assert cs == [cs[0]] + cs[1..];
      assert y == cs[0] ==> Above(d, rank, cs[0], y);
    }
  }

  lemma SiblingsApart(d: map<Id, Dentry>, rank: map<Id, nat>, x: Id, a: Id, b: Id, y: Id)
    requires TreeOk(d, rank) && x in d && a in d[x].subdirs && b in d[x].subdirs && a != b
    requires y in d
    ensures !(Above(d, rank, a, y) && Above(d, rank, b, y))
  {
    assert NodeOk(d, rank, x);
    assert NodeOk(d, rank, a) && NodeOk(d, rank, b);
    if Above(d, rank, a, y) && Above(d, rank, b, y) {
      AboveLinear(d, rank, a, b, y);
      if Above(d, rank, a, b) {
        AboveRank(d, rank, a, x);
      } else {
        AboveRank(d, rank, b, x);
      }
    }
  }

  lemma {:induction false} PreNoDup(d: map<Id, Dentry>, rank: map<Id, nat>, n: nat, x: Id)
    requires TreeOk(d, rank) && Bounded(d, rank, n) && x in d
    ensures NoDup(Pre(d, rank, n, x))
    decreases n - rank[x], 0
  {
    ChildrenBelow(d, rank, n, x);
    assert NodeOk(d, rank, x);
    PreListNoDup(d, rank, n, d[x].subdirs, n - rank[x] - 1, x);
  }

  lemma NoDupConcat<T>(a: seq<T>, b: seq<T>)
    requires NoDup(a) && NoDup(b) && forall v <- a :: v !in b
    ensures NoDup(a + b)
  {
    forall i, j | 0 <= i < j < |a + b| ensures (a + b)[i] != (a + b)[j] {
      if i < |a| <= j {
        assert a[i] in a;
      }
    }
  }

  lemma {:induction false} PreListNoDup(d: map<Id, Dentry>, rank: map<Id, nat>, n: nat, cs: seq<Id>, level: nat, x: Id)
    requires TreeOk(d, rank) && Bounded(d, rank, n) && Below(d, rank, n, cs, level)
    requires x in d && NoDup(cs) && forall c <- cs :: c in d[x].subdirs
    ensures NoDup(PreList(d, rank, n, cs, level))
    decreases level, |cs|
  {
    if cs != [] {
      var first, own, rest := cs[0], Pre(d, rank, n, cs[0]), PreList(d, rank, n, cs[1..], level);
      PreNoDup(d, rank, n, first);
      PreListNoDup(d, rank, n, cs[1..], level, x);
      PreMembers(d, rank, n, first, first);
      NoDupConcat([first], own);
      forall y <- [first] + own ensures y !in rest {
        PreMembers(d, rank, n, first, y);
        PreListMembers(d, rank, n, cs[1..], level, y);
        if c :| c in cs[1..] && y in d && c in d && Above(d, rank, c, y) {
          assert Above(d, rank, first, y);
          SiblingsApart(d, rank, x, first, c, y);
        }
      }
      NoDupConcat([first] + own, rest);
    }
  }

  // ------------------------------------------------------------------
  // The walk with goto
  // ------------------------------------------------------------------

  /** The place of x in its parent's list. */
  function IndexOf(q: seq<Id>, x: Id): (i: nat)
    requires x in q
    ensures i < |q| && q[i] == x
  {
    if q[0] == x then 0 else 1 + IndexOf(q[1..], x)
  }

  /**
    What is still to be visited below `top` when the walk stands at child `i`
    of `at`: the rest of this list, then the rest of the lists above.
  */
  ghost function Rest(d: map<Id, Dentry>, rank: map<Id, nat>, n: nat, top: Id, at: Id, i: nat): seq<Id>
    requires TreeOk(d, rank) && Bounded(d, rank, n) && at in d && Above(d, rank, top, at) && i <= |d[at].subdirs|
    decreases rank[at]
  {
    ChildrenBelow(d, rank, n, at);
    assert NodeOk(d, rank, at);
    var here := PreList(d, rank, n, d[at].subdirs[i..], n - rank[at] - 1);
    if at == top then here
    else here + Rest(d, rank, n, top, d[at].parent, IndexOf(d[d[at].parent].subdirs, at) + 1)
  }

  /** What comes after the list of `at` is run through. */
  ghost function Beyond(d: map<Id, Dentry>, rank: map<Id, nat>, n: nat, top: Id, at: Id): seq<Id>
    requires TreeOk(d, rank) && Bounded(d, rank, n) && at in d && Above(d, rank, top, at)
  {
    assert NodeOk(d, rank, at);
    if at == top then []
    else Rest(d, rank, n, top, d[at].parent, IndexOf(d[d[at].parent].subdirs, at) + 1)
  }

  lemma RestSplit(d: map<Id, Dentry>, rank: map<Id, nat>, n: nat, top: Id, at: Id, i: nat)
    requires TreeOk(d, rank) && Bounded(d, rank, n) && at in d && Above(d, rank, top, at) && i <= |d[at].subdirs|
    ensures Below(d, rank, n, d[at].subdirs[i..], n - rank[at] - 1)
    ensures Rest(d, rank, n, top, at, i)
         == PreList(d, rank, n, d[at].subdirs[i..], n - rank[at] - 1) + Beyond(d, rank, n, top, at)
  {
    ChildrenBelow(d, rank, n, at);
  }

  lemma PreListSplit(d: map<Id, Dentry>, rank: map<Id, nat>, n: nat, cs: seq<Id>, i: nat, level: nat)
    requires TreeOk(d, rank) && Bounded(d, rank, n) && i < |cs| && Below(d, rank, n, cs[i..], level)
    ensures cs[i] in d && Below(d, rank, n, cs[i + 1..], level)
    ensures PreList(d, rank, n, cs[i..], level)
         == [cs[i]] + Pre(d, rank, n, cs[i]) + PreList(d, rank, n, cs[i + 1..], level)
  {
    assert cs[i..][0] == cs[i] && cs[i..][1..] == cs[i + 1..];
  }

  /** Visiting a child: it is the next one, and the walk goes on inside it. */
  lemma RestDescend(d: map<Id, Dentry>, rank: map<Id, nat>, n: nat, top: Id, at: Id, i: nat)
    requires TreeOk(d, rank) && Bounded(d, rank, n) && at in d && Above(d, rank, top, at) && i < |d[at].subdirs|
    ensures var c := d[at].subdirs[i];
      && c in d && d[c].parent == at && Above(d, rank, top, c) && c != top
      && Rest(d, rank, n, top, at, i) == [c] + Rest(d, rank, n, top, c, 0)
  {
    hide Rest, PreList;
    var c := d[at].subdirs[i];
    assert NodeOk(d, rank, at);
    assert NodeOk(d, rank, c);
    AboveRank(d, rank, top, at);
    NoDupIndex(d[at].subdirs, i);
    RestSplit(d, rank, n, top, at, i);
    RestSplit(d, rank, n, top, at, i + 1);
    RestSplit(d, rank, n, top, c, 0);
    assert Beyond(d, rank, n, top, c) == Rest(d, rank, n, top, at, i + 1);
    PreListSplit(d, rank, n, d[at].subdirs, i, n - rank[at] - 1);
    assert d[c].subdirs[0..] == d[c].subdirs;
  }

  lemma {:induction false} NoDupIndex(q: seq<Id>, i: nat)
    requires NoDup(q) && i < |q|
    ensures IndexOf(q, q[i]) == i
  {
    var j := IndexOf(q, q[i]);
    assert q[j] == q[i];
  }

  /** A list run to its end: the walk goes on behind `at` in the list above. */
  lemma RestAscend(d: map<Id, Dentry>, rank: map<Id, nat>, n: nat, top: Id, at: Id)
    requires TreeOk(d, rank) && Bounded(d, rank, n) && at in d && Above(d, rank, top, at) && at != top
    ensures var p := d[at].parent;
      && p in d && Above(d, rank, top, p) && at in d[p].subdirs && rank[p] < rank[at]
      && Rest(d, rank, n, top, at, |d[at].subdirs|)
         == Rest(d, rank, n, top, p, IndexOf(d[p].subdirs, at) + 1)
  {
    hide Rest;
    assert NodeOk(d, rank, at);
    RestSplit(d, rank, n, top, at, |d[at].subdirs|);
    assert d[at].subdirs[|d[at].subdirs|..] == [];
  }

  lemma AboveSelf(d: map<Id, Dentry>, rank: map<Id, nat>, x: Id)
    requires TreeOk(d, rank) && x in d
    ensures Above(d, rank, x, x)
  {}

  /** The walk below `top` stands at child i of `at`, with `rest` still to come. */
  ghost predicate Standing(d: map<Id, Dentry>, rank: map<Id, nat>, n: nat, top: Id, at: Id, i: nat, rest: seq<Id>) {
    && TreeOk(d, rank) && Bounded(d, rank, n) && top in d && at in d
    && Above(d, rank, top, at) && i <= |d[at].subdirs|
    && rest == Rest(d, rank, n, top, at, i)
  }

  ghost function RankOf(rank: map<Id, nat>, x: Id): nat {
    if x in rank then rank[x] else 0
  }

  /** At the start all strict descendants are to come, each once. */
  lemma WalkBegins(d: map<Id, Dentry>, rank: map<Id, nat>, n: nat, top: Id) returns (all: seq<Id>)
    requires TreeOk(d, rank) && Bounded(d, rank, n) && top in d
    ensures Standing(d, rank, n, top, top, 0, all)
    ensures NoDup(all) && forall y :: y in all <==> y in d && y != top && Above(d, rank, top, y)
  {
    all := Pre(d, rank, n, top);
    assert d[top].subdirs[0..] == d[top].subdirs;
    AboveSelf(d, rank, top);
    PreNoDup(d, rank, n, top);
    forall y ensures y in all <==> y in d && y != top && Above(d, rank, top, y) {
      PreMembers(d, rank, n, top, y);
    }
  }

  lemma WalkEnds(d: map<Id, Dentry>, rank: map<Id, nat>, n: nat, top: Id, rest: seq<Id>)
    requires top in d && Standing(d, rank, n, top, top, |d[top].subdirs|, rest)
    ensures rest == []
  {
    assert d[top].subdirs[|d[top].subdirs|..] == [];
  }

  /** The next child is the next to come; the walk goes into it if it has children, else on in the list. */
  lemma WalkVisits(d: map<Id, Dentry>, rank: map<Id, nat>, n: nat, top: Id, at: Id, i: nat, rest: seq<Id>)
    requires at in d && i < |d[at].subdirs| && Standing(d, rank, n, top, at, i, rest)
    ensures rest != [] && rest[0] == d[at].subdirs[i] && rest[0] in d
    ensures if d[rest[0]].subdirs == [] then Standing(d, rank, n, top, at, i + 1, rest[1..])
            else Standing(d, rank, n, top, rest[0], 0, rest[1..])
  {
    hide Rest, Above;
    var c := d[at].subdirs[i];
    RestDescend(d, rank, n, top, at, i);
    if d[c].subdirs == [] {
      RestAscend(d, rank, n, top, c);
      assert NodeOk(d, rank, at);
      NoDupIndex(d[at].subdirs, i);
    }
  }

  /** At the end of a list the walk goes on behind it in the list above. */
  lemma WalkAscends(d: map<Id, Dentry>, rank: map<Id, nat>, n: nat, top: Id, at: Id, rest: seq<Id>)
    requires at in d && at != top && Standing(d, rank, n, top, at, |d[at].subdirs|, rest)
    ensures d[at].parent in d && at in d[d[at].parent].subdirs
    ensures RankOf(rank, d[at].parent) < RankOf(rank, at)
    ensures Standing(d, rank, n, top, d[at].parent, IndexOf(d[d[at].parent].subdirs, at) + 1, rest)
  {
    hide Rest, Above;
    assert NodeOk(d, rank, at);
    RestAscend(d, rank, n, top, at);
  }
}
