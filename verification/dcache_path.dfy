/** __d_path: writing the path of a dentry into a buffer, from its end to its start. */
module DcachePath {
  import opened Common
  import opened DcacheTree

  datatype Mount = Mount(root: Id, parent: nat, mountpoint: Id)

  /** Every mount hangs on a live dentry of its parent mount, and the parents lead to one that is its own. */
  ghost predicate MountOk(d: map<Id, Dentry>, mounts: map<nat, Mount>, level: map<nat, nat>, m: nat) {
    && m in mounts && m in level && mounts[m].parent in mounts && mounts[m].parent in level
    && mounts[m].mountpoint in d
    && (mounts[m].parent != m ==> level[mounts[m].parent] < level[m])
  }

  ghost predicate MountsOk(d: map<Id, Dentry>, mounts: map<nat, Mount>, level: map<nat, nat>) {
    forall m {:trigger MountOk(d, mounts, level, m)} :: m in mounts ==> MountOk(d, mounts, level, m)
  }

  /** What the dentry and mount structures are, and where the process's root is. */
  datatype World = World(d: map<Id, Dentry>, ghost rank: map<Id, nat>, mounts: map<nat, Mount>,
                         ghost level: map<nat, nat>, root: Id, rootmnt: nat) {
    ghost predicate Valid() {
      TreeOk(d, rank) && MountsOk(d, mounts, level)
    }

    ghost predicate At(x: Id, m: nat) {
      Valid() && x in d && m in mounts
    }

    ghost function Level(m: nat): nat {
      if m in level then level[m] else 0
    }

    ghost function Rank(x: Id): nat {
      if x in rank then rank[x] else 0
    }

    /** The names on the way down to the dentry, and the name of the global root if that is where the way starts. */
    ghost function Way(x: Id, m: nat): Way
      requires At(x, m)
      decreases Level(m), Rank(x)
    {
      assert NodeOk(d, rank, x) && MountOk(d, mounts, level, m);
      if x == root && m == rootmnt then Steps([], None)
      else if x == mounts[m].root || d[x].parent == x then
        if mounts[m].parent == m then Steps([], Some(d[x].name))
        else Way(mounts[m].mountpoint, mounts[m].parent)
      else
        var above := Way(d[x].parent, m);
        Steps(above.names + [d[x].name], above.start)
    }

    predicate Deleted(x: Id)
      requires x in d
    {
      d[x].parent != x && !d[x].hashed
    }
  }

  datatype Way = Steps(names: seq<string>, start: Option<string>)

  const DELETED: string := " (deleted)"

  function Joined(names: seq<string>): string {
    if names == [] then "" else "/" + names[0] + Joined(names[1..])
  }

  lemma {:induction false} JoinedConcat(a: seq<string>, b: seq<string>)
    ensures Joined(a + b) == Joined(a) + Joined(b)
  {
    if a == [] {
      assert a + b == b;
    } else {
      assert (a + b)[1..] == a[1..] + b;
      JoinedConcat(a[1..], b);
    }
  }

  /** The slash-joined names; a lone slash where there is none. */
  function Absolute(names: seq<string>): (s: string)
    ensures |s| >= 1 && s[0] == '/'
  {
    if names == [] then "/" else Joined(names)
  }

  /** The path: the global root's own name takes the place of the first slash. */
  function Text(w: Way, deleted: bool): string {
    (match w.start
     case None => Absolute(w.names)
     case Some(g) => g + Absolute(w.names)[1..])
    + (if deleted then DELETED else "")
  }

  /** Below a global root, a byte more is asked for than the path needs, unless it is the root itself and has a name. */
  function Slack(w: Way): nat {
    if w.start.Some? && (w.names != [] || w.start.value == "") then 1 else 0
  }

  /** A path that goes on to `done` over `name` is at least that long. */
  lemma AtLeast(above: seq<string>, name: string, done: seq<string>, start: Option<string>, deleted: bool)
    ensures |Text(Steps(above + [name] + done, start), deleted)| + Slack(Steps(above + [name] + done, start)) >=
      |name| + 1 + |Joined(done)| + (if deleted then 10 else 0)
  {
    JoinedConcat(above, [name] + done);
    assert above + [name] + done == above + ([name] + done);
    assert ([name] + done)[1..] == done;
  }

  /** memcpy into the buffer. */
  method Put(buffer: array<char>, at: nat, s: string)
    requires at + |s| <= buffer.Length
    modifies buffer
    ensures buffer[..] == old(buffer[..at]) + s + old(buffer[at + |s|..])
    ensures buffer[at + |s|..] == old(buffer[at + |s|..])
  {
    var i: nat := 0;
    while i < |s|
      invariant i <= |s|
      invariant buffer[..at] == old(buffer[..at])
      invariant buffer[at..at + i] == s[..i]
      invariant buffer[at + i..] == old(buffer[at + i..])
    {
      buffer[at + i] := s[i];
      i := i + 1;
    }
    assert buffer[..] == buffer[..at] + buffer[at..at + |s|] + buffer[at + |s|..];
  }

  /** The end of the buffer is written with the names seen so far. */
  ghost predicate Written(buffer: array<char>, end: int, done: seq<string>, tail: string)
    reads buffer
  {
    0 <= end <= buffer.Length && buffer[end..] == Joined(done) + tail
  }

  ghost predicate WrittenAt(buffer: array<char>, end: int, retval: int, done: seq<string>, tail: string)
    reads buffer
  {
    && Written(buffer, end, done, tail)
    && 0 <= retval < buffer.Length
    && retval == (if done == [] then end - 1 else end)
    && buffer[retval..] == Absolute(done) + tail
  }

  method PutName(buffer: array<char>, end: nat, name: string, ghost done: seq<string>, ghost tail: string)
    requires Written(buffer, end, done, tail) && |name| + 1 <= end
    modifies buffer
    ensures WrittenAt(buffer, end - |name| - 1, end - |name| - 1, [name] + done, tail)
  {
    Put(buffer, end - |name|, name);
    assert buffer[end - |name|..] == name + Joined(done) + tail;
    buffer[end - |name| - 1] := '/';
    assert buffer[end - |name|..] == name + Joined(done) + tail;
    assert ([name] + done)[1..] == done;
    assert buffer[end - |name| - 1..] == "/" + name + Joined(done) + tail;
  }

  /** The terminator, the mark of a deleted dentry and the first slash. */
  method Begin(buffer: array<char>, deleted: bool) returns (end: int)
    requires buffer.Length >= 1
    modifies buffer
    ensures end == buffer.Length - 1 - (if deleted then 10 else 0)
    ensures end >= 1 ==> WrittenAt(buffer, end, end - 1, [], (if deleted then DELETED else "") + "\0")
  {
    end := buffer.Length - 1;
    buffer[end] := '\0';
    if deleted {
      end := end - 10;
      if end < 0 {
        return;
      }
      Put(buffer, end, DELETED);
      assert buffer[end..] == DELETED + "\0";
    }
    if end < 1 {
      return;
    }
    ghost var tail := (if deleted then DELETED else "") + "\0";
    assert buffer[end..] == tail;
    buffer[end - 1] := '/';
    assert buffer[end..] == tail;
    assert buffer[end - 1..] == "/" + tail;
    assert Joined([]) + tail == tail;
  }

  method GlobalRoot(buffer: array<char>, end: nat, retval: nat, name: string, ghost done: seq<string>, ghost tail: string)
    returns (r: Option<nat>)
    requires WrittenAt(buffer, end, retval, done, tail)
    modifies buffer
    ensures r.Some? <==> |name| <= end
    ensures r.Some? ==> r.value <= buffer.Length && buffer[r.value..] == name + Absolute(done)[1..] + tail
  {
    if end - |name| < 0 {
      return None;
    }
    assert buffer[retval + 1..] == Absolute(done)[1..] + tail by {
      assert buffer[retval..][1..] == buffer[retval + 1..];
    }
    hide Joined, Absolute;
    var start := retval + 1 - |name|;
    Put(buffer, start, name);
    assert buffer[start..] == name + Absolute(done)[1..] + tail;
    return Some(start);
  }

  /**
    __d_path. The path ends up in the buffer, terminated, exactly if it fits;
    below a global root it must fit with a byte to spare.
  */
  method PathOf(w: World, x0: Id, m0: nat, buffer: array<char>) returns (r: Option<nat>)
    requires w.At(x0, m0) && buffer.Length >= 1
    modifies buffer
    ensures r.Some? <==> |Text(w.Way(x0, m0), w.Deleted(x0))| + 1 + Slack(w.Way(x0, m0)) <= buffer.Length
    ensures r.Some? ==>
      r.value <= buffer.Length && buffer[r.value..] == Text(w.Way(x0, m0), w.Deleted(x0)) + "\0"
  {
    hide Joined;
    ghost var way, tail := w.Way(x0, m0), (if w.Deleted(x0) then DELETED else "") + "\0";
    var end := Begin(buffer, w.Deleted(x0));
    if end < 1 {
      return None;
    }
    var retval := end - 1;
    var x, m := x0, m0;
    ghost var done: seq<string> := [];
    while true
      invariant w.At(x, m) && way == Steps(w.Way(x, m).names + done, w.Way(x, m).start)
      invariant WrittenAt(buffer, end, retval, done, tail)
      decreases w.Level(m), w.Rank(x)
    {
      assert NodeOk(w.d, w.rank, x) && MountOk(w.d, w.mounts, w.level, m);
      if x == w.root && m == w.rootmnt {
        break;
      }
      if x == w.mounts[m].root || w.d[x].parent == x {
        if w.mounts[m].parent == m {
          assert [] + done == done && way == Steps(done, Some(w.d[x].name));
          EndsWith(w.d[x].name + Absolute(done)[1..], w.Deleted(x0));
          r := GlobalRoot(buffer, end, retval, w.d[x].name, done, tail);
          return;
        }
        x, m := w.mounts[m].mountpoint, w.mounts[m].parent;
      } else {
        var name := w.d[x].name;
        ghost var above := w.Way(w.d[x].parent, m);
        if end - (|name| + 1) < 0 {
          AtLeast(above.names, name, done, above.start, w.Deleted(x0));
          return None;
        }
        assert above.names + [name] + done == above.names + ([name] + done);
        PutName(buffer, end, name, done, tail);
        end := end - |name| - 1;
        retval := end;
        done := [name] + done;
        x := w.d[x].parent;
      }
    }
    assert [] + done == done && way == Steps(done, None);
    EndsWith(Absolute(done), w.Deleted(x0));
    return Some(retval);
  }

  lemma EndsWith(s: string, deleted: bool)
    ensures s + ((if deleted then DELETED else "") + "\0") == (s + (if deleted then DELETED else "")) + "\0"
  {}

  /** "/" with a child "a", and a process whose root is elsewhere. */
  function Elsewhere(): World {
    var e := Dentry(1, 0, [], false, true, None, 0, "/", 0, None, false, false);
    World(map[0 := e.(count := 2, subdirs := [1]), 1 := e.(name := "a"), 2 := e.(parent := 2)],
          map[0 := 0, 1 := 1, 2 := 0], map[0 := Mount(0, 0, 0)], map[0 := 0], 2, 0)
  }

  lemma ElsewhereIs()
    ensures Elsewhere().At(1, 0) && Elsewhere().Way(1, 0) == Steps(["a"], Some("/")) && !Elsewhere().Deleted(1)
    ensures Text(Elsewhere().Way(1, 0), false) == "/a"
  {
    var w := Elsewhere();
    assert NodeOk(w.d, w.rank, 0) && NodeOk(w.d, w.rank, 1) && NodeOk(w.d, w.rank, 2);
    assert MountOk(w.d, w.mounts, w.level, 0);
    assert w.At(0, 0) && w.Way(0, 0) == Steps([], Some("/"));
    assert [] + ["a"] == ["a"];
    assert Joined(["a"]) == "/" + "a" + Joined([]);
  }

  /** "/a" below a global root "/" fits into three bytes with its terminator, but is refused there. */
  method SlackExample(buffer: array<char>) returns (r: Option<nat>)
    requires buffer.Length == 3
    modifies buffer
    ensures Elsewhere().At(1, 0) && |Text(Elsewhere().Way(1, 0), Elsewhere().Deleted(1)) + "\0"| == buffer.Length
    ensures r.None?
  {
    ElsewhereIs();
    r := PathOf(Elsewhere(), 1, 0, buffer);
  }
}
