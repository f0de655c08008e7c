/** The depth-bounded directory walk of the backup script. It prunes the top-down walk it rides on by
    emptying the list of subdirectories that walk is about to follow. */
module Walk {
  import opened Text

  datatype Dir = Dir(name: string, dirs: seq<Dir>, files: seq<string>)

  datatype Entry = Entry(root: string, dirs: seq<string>, files: seq<string>)

  const Sep := '/'

  // ---------- Paths ----------

  predicate EndsInSep(path: string) {
    path != "" && path[|path| - 1] == Sep
  }

  function JoinPath(root: string, name: string): string {
    if root == "" || EndsInSep(root) then root + name else root + [Sep] + name
  }

  function Count(path: string): nat {
    if path == "" then 0 else Count(path[..|path| - 1]) + if path[|path| - 1] == Sep then 1 else 0
  }

  function StripSeps(path: string): (stem: string)
    ensures stem <= path && !EndsInSep(stem)
  {
    if EndsInSep(path) then StripSeps(path[..|path| - 1]) else path
  }

  /** Python's os.path.dirname. */
  function DirName(path: string): string {
    if path == "" then ""
    else if !EndsInSep(path) then DirName(path[..|path| - 1])
    else if StripSeps(path) == "" then path
    else StripSeps(path)
  }

  lemma {:induction false} DirNameJoin(root: string, name: string)
    requires root != "" && !EndsInSep(root) && Free(name, Sep)
    ensures DirName(root + [Sep] + name) == root
    decreases |name|
  {
    var path := root + [Sep] + name;
    if name == "" {
      assert path[..|path| - 1] == root && StripSeps(root) == root;
    } else {
      assert path[..|path| - 1] == root + [Sep] + name[..|name| - 1];
      assert path[|path| - 1] == name[|name| - 1];
      DirNameJoin(root, name[..|name| - 1]);
    }
  }

  /** The number of separators a path ends in. */
  function Trailing(path: string): nat {
    |path| - |StripSeps(path)|
  }

  lemma {:induction false} CountAppend(a: string, b: string)
    ensures Count(a + b) == Count(a) + Count(b)
  {
    if b == "" {
      assert a + b == a;
    } else {
      assert (a + b)[..|a + b| - 1] == a + b[..|b| - 1];
      CountAppend(a, b[..|b| - 1]);
    }
  }

  lemma {:induction false} CountFree(s: string)
    requires Free(s, Sep)
    ensures Count(s) == 0
  {
    if s != "" {
      CountFree(s[..|s| - 1]);
    }
  }

  lemma {:induction false} CountStem(path: string)
    ensures Count(path) == Count(StripSeps(path)) + Trailing(path)
  {
    if EndsInSep(path) {
      CountStem(path[..|path| - 1]);
    }
  }

  // ---------- Directory trees ----------

  /** Names as a file system has them. */
  ghost predicate Named(d: Dir) {
    && d.name != "" && Free(d.name, Sep)
    && forall i :: 0 <= i < |d.dirs| ==> Named(d.dirs[i])
  }

  function Names(dirs: seq<Dir>): seq<string> {
    seq(|dirs|, i requires 0 <= i < |dirs| => dirs[i].name)
  }

  function Yield(root: string, d: Dir): Entry {
    Entry(root, Names(d.dirs), d.files)
  }

  /** The full top-down walk, each directory with its depth below the start. */
  function FullWalk(root: string, d: Dir, level: nat): seq<(Entry, nat)>
    decreases d, 0
  {
    [(Yield(root, d), level)] + FullWalkAll(root, d.dirs, level + 1)
  }

  function FullWalkAll(root: string, dirs: seq<Dir>, level: nat): seq<(Entry, nat)>
    decreases dirs, |dirs|
  {
    if dirs == [] then []
    else FullWalk(JoinPath(root, dirs[0].name), dirs[0], level) + FullWalkAll(root, dirs[1..], level)
  }

  /** A bound, or none. */
  predicate Within(n: int, bound: Option<int>) {
    bound.None? || n <= bound.value
  }

  /** The entries at most max deep, all of them without a bound. */
  function Shallow(walk: seq<(Entry, nat)>, max: Option<int>): seq<Entry> {
    if walk == [] then []
    else (if Within(walk[0].1, max) then [walk[0].0] else []) + Shallow(walk[1..], max)
  }

  lemma ShallowNothing(max: Option<int>)
    ensures Shallow([], max) == []
  {
  }

  lemma ShallowUnfold(walk: seq<(Entry, nat)>, max: Option<int>)
    requires walk != []
    ensures Shallow(walk, max) == (if Within(walk[0].1, max) then [walk[0].0] else []) + Shallow(walk[1..], max)
  {
  }

  lemma {:induction false} ShallowAppend(a: seq<(Entry, nat)>, b: seq<(Entry, nat)>, max: Option<int>)
    ensures Shallow(a + b, max) == Shallow(a, max) + Shallow(b, max)
  {
    hide Within, Shallow;
    if a == [] {
      assert a + b == b && Shallow([], max) == [] by {
        ShallowNothing(max);
      }
    } else {
      var all := a + b;
      assert all[0] == a[0] && all[1..] == a[1..] + b;
      ShallowAppend(a[1..], b, max);
      ShallowUnfold(all, max);
      ShallowUnfold(a, max);
    }
  }

  // ---------- The walk as the script does it ----------

  /** What is walked when the subdirectories of a root with limit separators or more are not followed. */
  function Pruned(root: string, d: Dir, limit: Option<int>): seq<Entry>
    decreases d, 0
  {
    [Yield(root, d)] + if limit.Some? && limit.value <= Count(root) then [] else PrunedAll(root, d.dirs, limit)
  }

  function PrunedAll(root: string, dirs: seq<Dir>, limit: Option<int>): seq<Entry>
    decreases dirs, |dirs|
  {
    if dirs == [] then []
    else Pruned(JoinPath(root, dirs[0].name), dirs[0], limit) + PrunedAll(root, dirs[1..], limit)
  }

  function Size(d: Dir): nat
    decreases d, 0
  {
    1 + SizeAll(d.dirs)
  }

  function SizeAll(dirs: seq<Dir>): nat
    decreases dirs, |dirs|
  {
    if dirs == [] then 0 else Size(dirs[0]) + SizeAll(dirs[1..])
  }

  /** Directories still to be visited, the next one last. */
  function Pending(stack: seq<(string, Dir)>, limit: Option<int>): seq<Entry> {
    if stack == [] then []
    else
      var top := stack[|stack| - 1];
      Pruned(top.0, top.1, limit) + Pending(stack[..|stack| - 1], limit)
  }

  function StackSize(stack: seq<(string, Dir)>): nat {
    if stack == [] then 0 else Size(stack[|stack| - 1].1) + StackSize(stack[..|stack| - 1])
  }

  /** The subdirectories on the stack, the first of them on top. */
  function Pushed(root: string, dirs: seq<Dir>): seq<(string, Dir)> {
    if dirs == [] then [] else Pushed(root, dirs[1..]) + [(JoinPath(root, dirs[0].name), dirs[0])]
  }

  lemma PendingTop(stack: seq<(string, Dir)>, top: (string, Dir), limit: Option<int>)
    ensures Pending(stack + [top], limit) == Pruned(top.0, top.1, limit) + Pending(stack, limit)
    ensures StackSize(stack + [top]) == Size(top.1) + StackSize(stack)
  {
  }

  lemma {:induction false} PushedPending(stack: seq<(string, Dir)>, root: string, dirs: seq<Dir>, limit: Option<int>)
    ensures Pending(stack + Pushed(root, dirs), limit) == PrunedAll(root, dirs, limit) + Pending(stack, limit)
    ensures StackSize(stack + Pushed(root, dirs)) == SizeAll(dirs) + StackSize(stack)
    decreases |dirs|
  {
    hide Pruned, Size, JoinPath, Pending, StackSize;
    if dirs == [] {
      assert stack + Pushed(root, dirs) == stack;
    } else {
      var top := (JoinPath(root, dirs[0].name), dirs[0]);
      PushedPending(stack, root, dirs[1..], limit);
      PendingTop(stack + Pushed(root, dirs[1..]), top, limit);
      assert stack + Pushed(root, dirs) == stack + Pushed(root, dirs[1..]) + [top];
    }
  }

  /** The separator count from which the script stops following subdirectories. */
  function Limit(path: string, depth: int): Option<int> {
    if depth < 0 then None else Some(Count(StripSeps(path)) + depth)
  }

  /** The walk with an explicit stack of what is still to be visited. */
  method Drain(path: string, start: Dir, limit: Option<int>) returns (entries: seq<Entry>)
    ensures entries == Pruned(path, start, limit)
  {
    hide *;
    var stack := [(path, start)];
    entries := [];
    StackOfOne(path, start, limit);
    while stack != []
      invariant entries + Pending(stack, limit) == Pruned(path, start, limit)
      decreases StackSize(stack)
    {
      var top, rest := stack[|stack| - 1], stack[..|stack| - 1];
      assert stack == rest + [top];
      VisitStep(rest, top.0, top.1, limit);
      var dirs := top.1.dirs;
      if limit.Some? && limit.value <= Count(top.0) {
        dirs := [];
      }
      var entry := Yield(top.0, top.1);
      stack := rest + Pushed(top.0, dirs);
      assert entries + ([entry] + Pending(stack, limit)) == entries + [entry] + Pending(stack, limit);
      entries := entries + [entry];
    }
    NoneLeft(path, limit);
  }

  /** The generator's results. A negative depth walks everything, a zero depth nothing. */
  method WalkLevel(path: string, top: Dir, depth: int) returns (entries: seq<Entry>)
    ensures entries == if depth == 0 then [] else Pruned(path, top, Limit(path, depth))
  {
    hide *;
    if depth == 0 {
      entries := [];
    } else {
      entries := Drain(path, top, Limit(path, depth));
    }
  }

  /** Visiting the top of the stack yields its entry and leaves its subdirectories, unless it is pruned. */
  lemma VisitStep(stack: seq<(string, Dir)>, root: string, d: Dir, limit: Option<int>)
    ensures var dirs := if limit.Some? && limit.value <= Count(root) then [] else d.dirs;
            var next := stack + Pushed(root, dirs);
            && Pending(stack + [(root, d)], limit) == [Yield(root, d)] + Pending(next, limit)
            && StackSize(next) < StackSize(stack + [(root, d)])
  {
    hide Count, Pruned, Size, SizeAll, Yield, Pending, StackSize, Pushed, PrunedAll;
    var dirs := if limit.Some? && limit.value <= Count(root) then [] else d.dirs;
    PendingTop(stack, (root, d), limit);
    PrunedUnfolds(root, d, limit);
    PushedPending(stack, root, dirs, limit);
    NoneLeft(root, limit);
  }

  lemma StackOfOne(path: string, top: Dir, limit: Option<int>)
    ensures Pending([(path, top)], limit) == Pruned(path, top, limit)
  {
  }

  lemma NoneLeft(root: string, limit: Option<int>)
    ensures PrunedAll(root, [], limit) == [] && SizeAll([]) == 0 && Pending([], limit) == []
  {
  }

  lemma PrunedUnfolds(root: string, d: Dir, limit: Option<int>)
    ensures Pruned(root, d, limit) ==
            [Yield(root, d)] +
            if limit.Some? && limit.value <= Count(root) then [] else PrunedAll(root, d.dirs, limit)
    ensures Size(d) == 1 + SizeAll(d.dirs)
  {
  }

  // ---------- The pruned walk refines the full one ----------

  lemma ChildPath(root: string, name: string)
    requires name != "" && Free(name, Sep)
    ensures !EndsInSep(JoinPath(root, name)) && JoinPath(root, name) != ""
    ensures Count(JoinPath(root, name)) == Count(root) + if root == "" || EndsInSep(root) then 0 else 1
  {
    CountFree(name);
    CountAppend(root, name);
    CountAppend(root + [Sep], name);
    CountAppend(root, [Sep]);
    assert Count([Sep]) == 1 by {
      assert [Sep][..0] == "";
    }
    assert JoinPath(root, name)[|JoinPath(root, name)| - 1] == name[|name| - 1];
  }

  /** The depth a limit allows at a directory whose path has so many separators. */
  function Room(limit: Option<int>, level: nat, count: nat): Option<int> {
    if limit.None? then None else Some(level + (if limit.value < count then 0 else limit.value - count))
  }

  /** Below a path that does not end in a separator, pruning by separators is cutting by depth. */
  lemma {:induction false} PrunedIsShallow(root: string, d: Dir, level: nat, limit: Option<int>)
    requires Named(d) && root != "" && !EndsInSep(root)
    ensures Pruned(root, d, limit) == Shallow(FullWalk(root, d, level), Room(limit, level, Count(root)))
    decreases d, 0
  {
    hide Count, JoinPath, Yield;
    var max := Room(limit, level, Count(root));
    ShallowFirst((Yield(root, d), level), FullWalkAll(root, d.dirs, level + 1), max);
    if limit.Some? && limit.value <= Count(root) {
      DeepIsCut(root, d.dirs, level + 1, max);
    } else {
      PrunedAllIsShallow(root, d.dirs, level, limit);
    }
  }

  lemma ShallowFirst(first: (Entry, nat), rest: seq<(Entry, nat)>, max: Option<int>)
    ensures Shallow([first] + rest, max) == (if Within(first.1, max) then [first.0] else []) + Shallow(rest, max)
  {
  }

  lemma {:induction false} PrunedAllIsShallow(root: string, dirs: seq<Dir>, level: nat, limit: Option<int>)
    requires forall i :: 0 <= i < |dirs| ==> Named(dirs[i])
    requires root != "" && !EndsInSep(root) && (limit.Some? ==> Count(root) < limit.value)
    ensures PrunedAll(root, dirs, limit) ==
            Shallow(FullWalkAll(root, dirs, level + 1), Room(limit, level, Count(root)))
    decreases dirs, |dirs|
  {
    hide Count, JoinPath, Yield;
    if dirs != [] {
      var child := JoinPath(root, dirs[0].name);
      ChildPath(root, dirs[0].name);
      PrunedIsShallow(child, dirs[0], level + 1, limit);
      PrunedAllIsShallow(root, dirs[1..], level, limit);
      ShallowAppend(FullWalk(child, dirs[0], level + 1), FullWalkAll(root, dirs[1..], level + 1),
                    Room(limit, level, Count(root)));
    }
  }

  /** Nothing of a walk that starts deeper than the bound is kept. */
  lemma {:induction false} DeepIsCut(root: string, dirs: seq<Dir>, level: nat, max: Option<int>)
    requires max.Some? && max.value < level
    ensures Shallow(FullWalkAll(root, dirs, level), max) == []
    decreases dirs, |dirs|
  {
    hide JoinPath, Yield;
    if dirs != [] {
      var child := JoinPath(root, dirs[0].name);
      ShallowFirst((Yield(child, dirs[0]), level), FullWalkAll(child, dirs[0].dirs, level + 1), max);
      DeepIsCut(child, dirs[0].dirs, level + 1, max);
      DeepIsCut(root, dirs[1..], level, max);
      ShallowAppend(FullWalk(child, dirs[0], level), FullWalkAll(root, dirs[1..], level), max);
    }
  }

  /** How deep the walk really goes from a path that ends in so many separators. */
  function Reached(trailing: nat, depth: int): int {
    if trailing == 0 then depth else if depth <= trailing then 0 else depth - trailing + 1
  }

  /** The start path itself, which may end in separators that its subdirectories' paths do not repeat. */
  lemma StartIsShallow(path: string, top: Dir, depth: int)
    requires Named(top) && path != "" && depth >= 1
    ensures Pruned(path, top, Limit(path, depth)) ==
            Shallow(FullWalk(path, top, 0), Some(Reached(Trailing(path), depth)))
  {
    hide Count, JoinPath, Yield, StripSeps;
    var limit := Limit(path, depth);
    CountStem(path);
    if Trailing(path) == 0 {
      NoTrailing(path);
      PrunedIsShallow(path, top, 0, limit);
    } else {
      var max := Some(Reached(Trailing(path), depth));
      NoTrailing(path);
      ShallowFirst((Yield(path, top), 0), FullWalkAll(path, top.dirs, 1), max);
      if depth <= Trailing(path) {
        DeepIsCut(path, top.dirs, 1, max);
      } else {
        ChildrenOfTrailing(path, top.dirs, limit);
      }
    }
  }

  lemma NoTrailing(path: string)
    ensures Trailing(path) == 0 <==> !EndsInSep(path)
  {
  }

  lemma {:induction false} ChildrenOfTrailing(path: string, dirs: seq<Dir>, limit: Option<int>)
    requires EndsInSep(path) && limit.Some? && Count(path) < limit.value
    requires forall i :: 0 <= i < |dirs| ==> Named(dirs[i])
    ensures PrunedAll(path, dirs, limit) ==
            Shallow(FullWalkAll(path, dirs, 1), Some(1 + limit.value - Count(path)))
    decreases |dirs|
  {
    hide Count, JoinPath, Yield;
    if dirs != [] {
      var child := JoinPath(path, dirs[0].name);
      ChildPath(path, dirs[0].name);
      PrunedIsShallow(child, dirs[0], 1, limit);
      ChildrenOfTrailing(path, dirs[1..], limit);
      ShallowAppend(FullWalk(child, dirs[0], 1), FullWalkAll(path, dirs[1..], 1), Some(1 + limit.value - Count(path)));
    }
  }

  // ---------- When the depth is the depth asked for ----------

  /** A directory in a directory in a directory, n below the first. */
  function Chain(n: nat): Dir {
    Dir("d", if n == 0 then [] else [Chain(n - 1)], [])
  }

  lemma {:induction false} ChainIsNamed(n: nat)
    ensures Named(Chain(n))
  {
    if n > 0 {
      ChainIsNamed(n - 1);
    }
  }

  lemma {:induction false} ChainWalk(root: string, n: nat, level: nat, max: nat)
    requires level <= max
    ensures |Shallow(FullWalk(root, Chain(n), level), Some(max))| == 1 + if n < max - level then n else max - level
    decreases n
  {
    hide JoinPath, Yield;
    var d := Chain(n);
    ShallowFirst((Yield(root, d), level), FullWalkAll(root, d.dirs, level + 1), Some(max));
    if n == 0 {
    } else if level == max {
      DeepIsCut(root, d.dirs, level + 1, Some(max));
    } else {
      var child := JoinPath(root, Chain(n - 1).name);
      assert d.dirs[1..] == [];
      assert FullWalkAll(root, d.dirs, level + 1) == FullWalk(child, Chain(n - 1), level + 1);
      ChainWalk(child, n - 1, level + 1, max);
    }
  }

  ghost predicate ExactFor(path: string, depth: int) {
    forall top :: Named(top) ==>
      Pruned(path, top, Limit(path, depth)) == Shallow(FullWalk(path, top, 0), Some(depth))
  }

  /** For every tree the walk is the full top-down walk cut at the depth asked for, exactly when the start path
      has no trailing separator, or one of them and a depth of two at least. */
  lemma WalkLevelExactly(path: string, depth: int)
    requires path != "" && depth >= 1
    ensures ExactFor(path, depth) <==> Trailing(path) == 0 || (Trailing(path) == 1 && depth >= 2)
  {
    hide Pruned, Shallow, FullWalk, Limit, Trailing;
    var reached := Reached(Trailing(path), depth);
    if reached == depth {
      forall top | Named(top)
        ensures Pruned(path, top, Limit(path, depth)) == Shallow(FullWalk(path, top, 0), Some(depth))
      {
        StartIsShallow(path, top, depth);
      }
    } else {
      ChainIsNamed(depth);
      StartIsShallow(path, Chain(depth), depth);
      ChainWalk(path, depth, 0, reached);
      ChainWalk(path, depth, 0, depth);
    }
  }

  /** A negative depth yields the full walk. */
  lemma NegativeDepthWalksAll(path: string, top: Dir, depth: int)
    requires Named(top) && path != "" && !EndsInSep(path) && depth < 0
    ensures Pruned(path, top, Limit(path, depth)) == Shallow(FullWalk(path, top, 0), None)
  {
    PrunedIsShallow(path, top, 0, None);
  }

  // ---------- The directories found ----------

  /** A directory by its names below the start. */
  function Render(root: string, names: seq<string>): string
    decreases |names|
  {
    if names == [] then root else Render(JoinPath(root, names[0]), names[1..])
  }

  ghost predicate HasPath(d: Dir, names: seq<string>)
    decreases |names|
  {
    names == [] || exists i :: 0 <= i < |d.dirs| && d.dirs[i].name == names[0] && HasPath(d.dirs[i], names[1..])
  }

  /** Every directory at most so deep is yielded under its rendered path. */
  lemma {:induction false} WalkReaches(root: string, d: Dir, level: nat, names: seq<string>, max: int)
    requires HasPath(d, names) && level + |names| <= max
    ensures exists k :: 0 <= k < |Shallow(FullWalk(root, d, level), Some(max))| &&
              Shallow(FullWalk(root, d, level), Some(max))[k].root == Render(root, names)
    decreases |names|
  {
    hide JoinPath;
    var rest := FullWalkAll(root, d.dirs, level + 1);
    ShallowFirst((Yield(root, d), level), rest, Some(max));
    var all := Shallow(FullWalk(root, d, level), Some(max));
    if names == [] {
      assert all[0].root == Render(root, names);
    } else {
      var i :| 0 <= i < |d.dirs| && d.dirs[i].name == names[0] && HasPath(d.dirs[i], names[1..]);
      WalkReaches(JoinPath(root, names[0]), d.dirs[i], level + 1, names[1..], max);
      var k := InAll(root, d.dirs, i, level + 1, Render(root, names), max);
      assert all[k + 1] == Shallow(rest, Some(max))[k];
    }
  }

  lemma {:induction false} InAll(root: string, dirs: seq<Dir>, i: nat, level: nat, target: string, max: int)
    returns (k: nat)
    requires i < |dirs|
    requires exists j :: 0 <= j < |Shallow(FullWalk(JoinPath(root, dirs[i].name), dirs[i], level), Some(max))| &&
               Shallow(FullWalk(JoinPath(root, dirs[i].name), dirs[i], level), Some(max))[j].root == target
    ensures k < |Shallow(FullWalkAll(root, dirs, level), Some(max))|
    ensures Shallow(FullWalkAll(root, dirs, level), Some(max))[k].root == target
    decreases |dirs|
  {
    hide JoinPath, FullWalk;
    var first := FullWalk(JoinPath(root, dirs[0].name), dirs[0], level);
    ShallowAppend(first, FullWalkAll(root, dirs[1..], level), Some(max));
    if i == 0 {
      k :| 0 <= k < |Shallow(first, Some(max))| && Shallow(first, Some(max))[k].root == target;
    } else {
      k := InAll(root, dirs[1..], i - 1, level, target, max);
      k := |Shallow(first, Some(max))| + k;
    }
  }

  /** And nothing else is yielded. */
  lemma {:induction false} WalkOnlyReaches(root: string, d: Dir, level: nat, max: int, k: nat)
    returns (names: seq<string>)
    requires k < |Shallow(FullWalk(root, d, level), Some(max))|
    ensures HasPath(d, names) && level + |names| <= max
    ensures Shallow(FullWalk(root, d, level), Some(max))[k].root == Render(root, names)
    decreases d, 0
  {
    hide JoinPath;
    var rest := FullWalkAll(root, d.dirs, level + 1);
    ShallowFirst((Yield(root, d), level), rest, Some(max));
    if level > max {
      DeepIsCut(root, d.dirs, level + 1, Some(max));
      assert false;
    } else if k == 0 {
      names := [];
    } else {
      var i, below := WalkOnlyReachesAll(root, d.dirs, level + 1, max, k - 1);
      names := [d.dirs[i].name] + below;
      assert names[1..] == below;
    }
  }

  lemma {:induction false} WalkOnlyReachesAll(root: string, dirs: seq<Dir>, level: nat, max: int, k: nat)
    returns (i: nat, names: seq<string>)
    requires k < |Shallow(FullWalkAll(root, dirs, level), Some(max))|
    ensures i < |dirs| && HasPath(dirs[i], names) && level + |names| <= max
    ensures Shallow(FullWalkAll(root, dirs, level), Some(max))[k].root == Render(JoinPath(root, dirs[i].name), names)
    decreases dirs, |dirs|
  {
    hide JoinPath, FullWalk;
    var child := JoinPath(root, dirs[0].name);
    var first := FullWalk(child, dirs[0], level);
    ShallowAppend(first, FullWalkAll(root, dirs[1..], level), Some(max));
    if k < |Shallow(first, Some(max))| {
      names := WalkOnlyReaches(child, dirs[0], level, max, k);
      i := 0;
    } else {
      i, names := WalkOnlyReachesAll(root, dirs[1..], level, max, k - |Shallow(first, Some(max))|);
      i := i + 1;
    }
  }
}
