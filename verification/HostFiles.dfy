/** The directories of a Cassandra host below its data directory: as a set of paths, as the tree that is
    walked, and as the text the walk yields. */
module HostFiles {
  import opened Text
  import opened Walk

  /** A directory by its names below the data directory. */
  type Path = seq<string>

  const DataDir := "/var/lib/cassandra/data"

  function Rendered(p: Path): string {
    Render(DataDir, p)
  }

  ghost predicate GoodName(name: string) {
    name != "" && Free(name, Sep)
  }

  ghost predicate GoodPath(p: Path) {
    forall i :: 0 <= i < |p| ==> GoodName(p[i])
  }

  ghost predicate GoodPaths(dirs: set<Path>) {
    forall p :: p in dirs ==> GoodPath(p)
  }

  /** The directories there are when some are: those themselves, and every one above them. */
  ghost predicate Shown(dirs: set<Path>, p: Path) {
    p == [] || exists q :: q in dirs && p <= q
  }

  // ---------- The tree ----------

  function IndexOf(dirs: seq<Dir>, name: string): (i: nat)
    ensures i <= |dirs| && (i < |dirs| ==> dirs[i].name == name)
    ensures forall j :: 0 <= j < i ==> dirs[j].name != name
  {
    if dirs == [] then 0
    else if dirs[0].name == name then 0
    else 1 + IndexOf(dirs[1..], name)
  }

  /** The tree with one more directory and those above it. */
  function Insert(d: Dir, p: Path): (r: Dir)
    ensures r.name == d.name
    decreases |p|
  {
    if p == [] then d
    else
      var i := IndexOf(d.dirs, p[0]);
      if i < |d.dirs| then d.(dirs := d.dirs[i := Insert(d.dirs[i], p[1..])])
      else d.(dirs := d.dirs + [Insert(Dir(p[0], [], []), p[1..])])
  }

  lemma {:induction false} InsertAdds(d: Dir, p: Path, q: Path)
    ensures HasPath(Insert(d, p), q) <==> HasPath(d, q) || q <= p
    decreases |p|
  {
    if p != [] && q != [] {
      var i, after := IndexOf(d.dirs, p[0]), Insert(d, p);
      var child := if i < |d.dirs| then d.dirs[i] else Dir(p[0], [], []);
      InsertAdds(child, p[1..], q[1..]);
      assert after.dirs[i] == Insert(child, p[1..]);
      assert forall j :: 0 <= j < |after.dirs| && j != i ==> j < |d.dirs| && after.dirs[j] == d.dirs[j];
      assert q <= p <==> q[0] == p[0] && q[1..] <= p[1..];
      if HasPath(d, q) {
        var j :| 0 <= j < |d.dirs| && d.dirs[j].name == q[0] && HasPath(d.dirs[j], q[1..]);
        assert HasPath(after.dirs[j], q[1..]);
      }
    }
  }

  lemma {:induction false} InsertNamed(d: Dir, p: Path)
    requires Named(d) && GoodPath(p)
    ensures Named(Insert(d, p))
    decreases |p|
  {
    if p != [] {
      var i := IndexOf(d.dirs, p[0]);
      var child := if i < |d.dirs| then d.dirs[i] else Dir(p[0], [], []);
      assert GoodName(p[0]) && GoodPath(p[1..]);
      InsertNamed(child, p[1..]);
      var after := Insert(d, p);
      assert forall j :: 0 <= j < |after.dirs| ==>
        after.dirs[j] == if j == i then Insert(child, p[1..]) else d.dirs[j];
    }
  }

  /** The tree of a host that has some directories. */
  method TreeOf(dirs: set<Path>) returns (top: Dir)
    requires GoodPaths(dirs)
    ensures Named(top) && forall q :: HasPath(top, q) <==> Shown(dirs, q)
  {
    top := Dir("data", [], []);
    var left := dirs;
    while left != {}
      invariant left <= dirs && Named(top)
      invariant forall q :: HasPath(top, q) <==> Shown(dirs - left, q)
      decreases |left|
    {
      var p :| p in left;
      ghost var before := top;
      InsertNamed(top, p);
      top := Insert(top, p);
      forall q
        ensures HasPath(top, q) <==> Shown(dirs - (left - {p}), q)
      {
        InsertAdds(before, p, q);
        assert dirs - (left - {p}) == (dirs - left) + {p};
        ShownMore(dirs - left, p, q);
      }
      left := left - {p};
    }
    assert dirs - {} == dirs;
  }

  lemma ShownMore(dirs: set<Path>, p: Path, q: Path)
    ensures Shown(dirs + {p}, q) <==> Shown(dirs, q) || q <= p
  {
    if q <= p {
      assert p in dirs + {p};
    }
    if q != [] && Shown(dirs, q) {
      var r :| r in dirs && q <= r;
      assert r in dirs + {p};
    }
  }

  // ---------- Paths as text ----------

  /** The names in a rendered path. */
  function PathOf(s: string): Path {
    if |s| <= |DataDir| then [] else Split(s[|DataDir| + 1..], Sep)
  }

  lemma JoinOne(name: string)
    ensures Join([name], [Sep]) == name
  {
  }

  lemma {:induction false} RenderJoins(root: string, p: Path)
    requires root != "" && !EndsInSep(root) && p != [] && GoodPath(p)
    ensures Render(root, p) == root + [Sep] + Join(p, [Sep])
    decreases |p|
  {
    hide Join, Free;
    var next := JoinPath(root, p[0]);
    assert GoodName(p[0]) && next == root + [Sep] + p[0];
    ChildPath(root, p[0]);
    if |p| == 1 {
      assert p[1..] == [] && Render(next, []) == next;
      JoinOne(p[0]);
      assert p == [p[0]];
    } else {
      assert GoodPath(p[1..]);
      RenderJoins(next, p[1..]);
      assert [p[0]] + p[1..] == p;
      JoinFront(p[0], p[1..], [Sep]);
    }
  }

  lemma {:induction false} JoinSplits(p: Path)
    requires p != [] && GoodPath(p)
    ensures Split(Join(p, [Sep]), Sep) == p
    decreases |p|
  {
    assert GoodName(p[0]);
    if |p| == 1 {
      SplitFirst(p[0], Sep, "");
    } else {
      assert GoodPath(p[1..]);
      JoinSplits(p[1..]);
      assert [p[0]] + p[1..] == p;
      JoinFront(p[0], p[1..], [Sep]);
      SplitFirst(p[0], Sep, Join(p[1..], [Sep]));
    }
  }

  /** A rendered path reads back as its names. */
  lemma PathReads(p: Path)
    requires GoodPath(p)
    ensures PathOf(Rendered(p)) == p
  {
    hide Split, Join;
    if p != [] {
      assert !EndsInSep(DataDir);
      RenderJoins(DataDir, p);
      assert Rendered(p)[|DataDir| + 1..] == Join(p, [Sep]);
      JoinSplits(p);
    }
  }

  /** The text of a path starts with the text of every directory above it. */
  lemma {:induction false} RenderGrows(root: string, p: Path, more: Path)
    ensures Render(root, p + more) == Render(Render(root, p), more)
    ensures root <= Render(root, p)
    decreases |p|
  {
    if p == [] {
      assert p + more == more;
    } else {
      assert (p + more)[1..] == p[1..] + more;
      RenderGrows(JoinPath(root, p[0]), p[1..], more);
    }
  }

  lemma ShorterIsPrefix(p: Path, q: Path)
    requires p <= q
    ensures Rendered(p) <= Rendered(q)
  {
    assert p + q[|p|..] == q;
    RenderGrows(DataDir, p, q[|p|..]);
    RenderGrows(Rendered(p), q[|p|..], []);
  }

  // ---------- The search ----------

  /** The roots that the walk from the data directory yields to a depth of four and that hold a name, as paths. */
  method SearchWalk(dirs: set<Path>, name: string) returns (found: seq<Path>)
    requires GoodPaths(dirs)
    ensures forall p :: p in found <==> Shown(dirs, p) && |p| <= 4 && Occurs(name, Rendered(p))
  {
    hide Occurs, PathOf, FullWalk, Shallow, Pruned, Limit, HasPath, Shown, Render;
    var top := TreeOf(dirs);
    var entries := WalkLevel(DataDir, top, 4);
    WalkFromDataDir(top);
    found := [];
    for k := 0 to |entries|
      invariant forall p :: p in found ==> Shown(dirs, p) && |p| <= 4 && Occurs(name, Rendered(p))
      invariant forall j :: 0 <= j < k && Occurs(name, entries[j].root) ==> PathOf(entries[j].root) in found
    {
      ghost var names := WalkOnlyReaches(DataDir, top, 0, 4, k);
      ShownIsGood(dirs, names);
      PathReads(names);
      if Occurs(name, entries[k].root) {
        found := found + [PathOf(entries[k].root)];
      }
    }
    forall p | Shown(dirs, p) && |p| <= 4 && Occurs(name, Rendered(p))
      ensures p in found
    {
      WalkReaches(DataDir, top, 0, p, 4);
      var k :| 0 <= k < |entries| && entries[k].root == Rendered(p);
      ShownIsGood(dirs, p);
      PathReads(p);
    }
  }

  lemma WalkFromDataDir(top: Dir)
    requires Named(top)
    ensures Pruned(DataDir, top, Limit(DataDir, 4)) == Shallow(FullWalk(DataDir, top, 0), Some(4))
  {
    hide Pruned, Limit, Shallow, FullWalk;
    NoTrailing(DataDir);
    WalkLevelExactly(DataDir, 4);
  }

  lemma ShownIsGood(dirs: set<Path>, p: Path)
    requires GoodPaths(dirs) && Shown(dirs, p)
    ensures GoodPath(p)
  {
    if p != [] {
      var q :| q in dirs && p <= q;
      assert forall i :: 0 <= i < |p| ==> p[i] == q[i];
    }
  }
}
