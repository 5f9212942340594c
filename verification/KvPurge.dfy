/** `purge_tree`: deleting everything below a path of the key/value store with an explicit stack. */
module KvPurge {
  import opened Posix
  import opened ListKeys

  /** A stored path as its segments. */
  type Path = seq<Key>

  predicate Under(p: Path, dir: Path) {
    |dir| < |p| && p[..|dir|] == dir
  }

  /** What a list call reports as a name with a trailing slash. */
  predicate IsDeeper(d: Path, paths: set<Path>, dir: Path) {
    exists p :: p in paths && Under(p, dir) && |p| > |dir| + 1 && p[..|dir| + 1] == d
  }

  /** The paths a list call reports as names without one. */
  function Leaves(paths: set<Path>, dir: Path): set<Path> {
    set p | p in paths && Under(p, dir) && |p| == |dir| + 1
  }

  lemma UnderTransitive(p: Path, d: Path, root: Path)
    requires Under(p, d) && root <= d
    ensures Under(p, root)
  {
    assert p[..|root|] == d[..|root|];
  }

  /** The directories on the way to stored paths. */
  function Dirs(paths: set<Path>): set<Path> {
    set p, n | p in paths && 0 <= n < |p| :: p[..n]
  }

  function Parent(d: Path): Path
    requires d != []
  {
    d[..|d| - 1]
  }

  /** Reached from the root through a directory already visited. */
  predicate Reached(d: Path, root: Path, visited: set<Path>) {
    root <= d && (d == root || (|d| > |root| && Parent(d) in visited))
  }

  predicate StackOk(stack: seq<Path>, root: Path, visited: set<Path>, dirs: set<Path>) {
    && Distinct(stack)
    && (forall k :: 0 <= k < |stack| ==> Reached(stack[k], root, visited) && stack[k] !in visited && stack[k] in dirs)
    && (forall d :: d in visited ==> Reached(d, root, visited))
  }

  predicate StillToCome(p: Path, stack: seq<Path>) {
    exists k :: 0 <= k < |stack| && Under(p, stack[k])
  }

  lemma PopKeepsOk(stack: seq<Path>, root: Path, visited: set<Path>, dirs: set<Path>)
    requires stack != [] && StackOk(stack, root, visited, dirs)
    ensures var n := |stack| - 1; StackOk(stack[..n], root, visited + {stack[n]}, dirs)
  {
    var n := |stack| - 1;
    var rest, seen := stack[..n], visited + {stack[n]};
    assert forall k :: 0 <= k < n ==> rest[k] == stack[k] != stack[n];
  }

  /** A child of the directory just visited is new everywhere. */
  lemma ChildIsNew(child: Path, stack: seq<Path>, root: Path, visited: set<Path>, dirs: set<Path>)
    requires stack != [] && StackOk(stack, root, visited, dirs)
    requires var cur := stack[|stack| - 1]; |child| == |cur| + 1 && Parent(child) == cur
    ensures child !in visited && child !in stack
  {
    var cur := stack[|stack| - 1];
    assert root <= cur && cur !in visited;
    assert child in visited ==> Reached(child, root, visited);
    assert forall k :: 0 <= k < |stack| ==> Reached(stack[k], root, visited);
  }

  lemma ChildShape(d: Path, paths: set<Path>, cur: Path)
    requires IsDeeper(d, paths, cur)
    ensures |d| == |cur| + 1 && Parent(d) == cur && cur <= d && d in Dirs(paths)
  {
    var p :| p in paths && Under(p, cur) && |p| > |cur| + 1 && p[..|cur| + 1] == d;
    assert p[..|cur| + 1][..|cur|] == p[..|cur|];
  }

  lemma PushKeepsOk(stack: seq<Path>, deeper: seq<Path>, root: Path, visited: set<Path>, dirs: set<Path>, paths: set<Path>)
    requires stack != [] && StackOk(stack, root, visited, dirs) && Dirs(paths) <= dirs && Distinct(deeper)
    requires forall d :: d in deeper ==> IsDeeper(d, paths, stack[|stack| - 1])
    ensures var n := |stack| - 1; StackOk(stack[..n] + deeper, root, visited + {stack[n]}, dirs)
  {
    hide IsDeeper, Parent, Dirs;
    var n := |stack| - 1;
    var cur, rest, seen := stack[n], stack[..n], visited + {stack[n]};
    PopKeepsOk(stack, root, visited, dirs);
    forall k | 0 <= k < |deeper|
      ensures Reached(deeper[k], root, seen) && deeper[k] !in seen && deeper[k] in dirs && deeper[k] !in rest
    {
      assert deeper[k] in deeper;
      ChildShape(deeper[k], paths, cur);
      ChildIsNew(deeper[k], stack, root, visited, dirs);
    }
    JoinDistinct(rest, deeper);
  }

  lemma JoinDistinct(a: seq<Path>, b: seq<Path>)
    requires Distinct(a) && Distinct(b) && forall k :: 0 <= k < |b| ==> b[k] !in a
    ensures Distinct(a + b)
  {
  }

  /** What the visited directory covered is deleted or covered by one of its children. */
  lemma PushCovers(p: Path, stack: seq<Path>, deeper: seq<Path>, paths: set<Path>)
    requires stack != [] && StillToCome(p, stack) && p in paths && p !in Leaves(paths, stack[|stack| - 1])
    requires forall d :: IsDeeper(d, paths, stack[|stack| - 1]) ==> d in deeper
    ensures StillToCome(p, stack[..|stack| - 1] + deeper)
  {
    var n := |stack| - 1;
    var cur, next := stack[n], stack[..n] + deeper;
    var k :| 0 <= k < |stack| && Under(p, stack[k]);
    if k < n {
      assert next[k] == stack[k];
    } else {
      var d := p[..|cur| + 1];
      assert IsDeeper(d, paths, cur);
      assert d in deeper;
      var i :| 0 <= i < |deeper| && deeper[i] == d;
      assert next[n + i] == d && Under(p, d);
    }
  }

  /** The elements of a set in some order. */
  method AnyOrder(s: set<Path>) returns (q: seq<Path>)
    ensures Distinct(q) && forall d :: d in q <==> d in s
  {
    q := [];
    var rest := s;
    while rest != {}
      invariant rest <= s && Distinct(q) && forall d :: d in q <==> d in s - rest
      decreases rest
    {
      var d :| d in rest;
      assert d !in q;
      assert forall x :: x in q + [d] <==> x in q || x == d;
      q := q + [d];
      rest := rest - {d};
    }
  }

  class Kv {
    var paths: set<Path>

    /** One list call. */
    method List(dir: Path) returns (leaves: set<Path>, deeper: seq<Path>)
      ensures leaves == Leaves(paths, dir)
      ensures Distinct(deeper) && forall d :: d in deeper <==> IsDeeper(d, paths, dir)
    {
      leaves := Leaves(paths, dir);
      deeper := AnyOrder(set p | p in paths && Under(p, dir) && |p| > |dir| + 1 :: p[..|dir| + 1]);
    }

    /** Deletes exactly the paths below `root`, in whatever order listings come back. */
    method PurgeTree(root: Path)
      modifies this
      ensures forall p :: p in paths <==> p in old(paths) && !Under(p, root)
    {
      hide Under, Parent, Dirs, IsDeeper, Leaves;
      var stack := [root];
      ghost var visited: set<Path> := {};
      ghost var dirs := Dirs(paths) + {root};
      RootReached(root);
      forall p | p in paths && Under(p, root) ensures StillToCome(p, stack) { assert Under(p, stack[0]); }
      while stack != []
        invariant StackOk(stack, root, visited, dirs)
        invariant paths <= old(paths) && forall p :: p in old(paths) - paths ==> Under(p, root)
        invariant forall p :: p in paths && Under(p, root) ==> StillToCome(p, stack)
        decreases dirs - visited
      {
        var n := |stack| - 1;
        var cur := stack[n];
        var leaves, deeper := List(cur);
        DirsMonotone(paths, old(paths));
        PushKeepsOk(stack, deeper, root, visited, dirs, paths);
        forall p | p in leaves ensures Under(p, root) { LeafUnder(p, paths, cur, root); }
        forall p | p in paths - leaves && Under(p, root)
          ensures StillToCome(p, stack[..n] + deeper)
        {
          PushCovers(p, stack, deeper, paths);
        }
        paths := paths - leaves;
        stack := stack[..n] + deeper;
        visited := visited + {cur};
      }
      assert forall p :: !StillToCome(p, []);
    }
  }

  lemma DirsMonotone(a: set<Path>, b: set<Path>)
    requires a <= b
    ensures Dirs(a) <= Dirs(b)
  {
  }

  lemma LeafUnder(p: Path, paths: set<Path>, cur: Path, root: Path)
    requires p in Leaves(paths, cur) && root <= cur
    ensures Under(p, root)
  {
    UnderTransitive(p, cur, root);
  }

  lemma RootReached(root: Path)
    ensures Reached(root, root, {})
  {
  }
}
