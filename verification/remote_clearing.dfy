/** Taking temporary entries and freshly made directories away again gives back the starting tree. */
module RemoteClearing {
  import opened Wrappers
  import opened PathText
  import opened RemoteTree

  function Cleared(tree: Tree, path: Path): (after: Tree) {
    if Placeable(tree, path) then Put(tree, path, None) else tree
  }

  /** Every path cleared, the last one first. */
  function ClearedAll(tree: Tree, paths: seq<Path>): (after: Tree)
    decreases |paths|
  {
    if paths == [] then tree
    else ClearedAll(Cleared(tree, paths[|paths| - 1]), paths[..|paths| - 1])
  }

  /** Going through the directories last one first, each is empty when its turn comes. */
  predicate Emptied(tree: Tree, dirs: seq<Path>)
    decreases |dirs|
  {
    dirs == []
    || (Lookup(tree, dirs[|dirs| - 1]) == Some(Dir(map[]))
        && Emptied(Cleared(tree, dirs[|dirs| - 1]), dirs[..|dirs| - 1]))
  }

  predicate Apart(paths: seq<Path>) {
    forall i, j :: 0 <= i < j < |paths| ==> Disjoint(paths[i], paths[j])
  }

  lemma ClearedAfterPut(tree: Tree, path: Path, entry: Option<Tree>)
    requires Placeable(tree, path)
    ensures Cleared(Put(tree, path, entry), path) == Cleared(tree, path)
  {
    PutThenSame(tree, path, entry, None);
  }

  lemma ClearedMissing(tree: Tree, path: Path)
    requires Lookup(tree, path).None?
    ensures Cleared(tree, path) == tree
  {
    if Placeable(tree, path) {
      PutFound(tree, path);
    }
  }

  lemma ClearedElsewhere(tree: Tree, p: Path, entry: Option<Tree>, q: Path)
    requires Disjoint(p, q) && Placeable(tree, p)
    ensures Placeable(Cleared(tree, q), p)
    ensures Cleared(Put(tree, p, entry), q) == Put(Cleared(tree, q), p, entry)
  {
    PutThenOther(tree, p, entry, q, None);
    if Placeable(tree, q) {
      PutThenOther(tree, q, None, p, entry);
    }
  }

  lemma LookupAfterClearing(tree: Tree, p: Path, q: Path)
    requires Disjoint(p, q)
    ensures Lookup(Cleared(tree, q), p) == Lookup(tree, p)
  {
    if Placeable(tree, q) {
      PutThenOther(tree, q, None, p, None);
    }
  }

  /** Whatever is written at a path that will be cleared does not matter. */
  lemma {:induction false} RewriteIsCleared(tree: Tree, path: Path, entry: Option<Tree>, paths: seq<Path>)
    requires Apart(paths) && path in paths && Placeable(tree, path)
    ensures ClearedAll(Put(tree, path, entry), paths) == ClearedAll(tree, paths)
    decreases |paths|
  {
    var last, rest := paths[|paths| - 1], paths[..|paths| - 1];
    if last == path {
      ClearedAfterPut(tree, path, entry);
    } else {
      var i :| 0 <= i < |paths| && paths[i] == path;
      assert rest[i] == path;
      ClearedElsewhere(tree, path, entry, last);
      RewriteIsCleared(Cleared(tree, last), path, entry, rest);
    }
  }

  function Without(paths: seq<Path>, path: Path): (rest: seq<Path>)
    ensures forall q :: q in rest ==> q in paths && q != path
  {
    if paths == [] then []
    else
      var rest := Without(paths[..|paths| - 1], path);
      if paths[|paths| - 1] == path then rest else rest + [paths[|paths| - 1]]
  }

  /** A path where nothing stands need not be cleared. */
  lemma {:induction false} MissingNeedsNoClearing(tree: Tree, path: Path, paths: seq<Path>)
    requires Lookup(tree, path).None?
    requires forall i :: 0 <= i < |paths| ==> paths[i] == path || Disjoint(path, paths[i])
    ensures ClearedAll(tree, Without(paths, path)) == ClearedAll(tree, paths)
    decreases |paths|
  {
    if paths != [] {
      var last, rest := paths[|paths| - 1], paths[..|paths| - 1];
      if last == path {
        ClearedMissing(tree, path);
        MissingNeedsNoClearing(tree, path, rest);
      } else {
        LookupAfterClearing(tree, path, last);
        MissingNeedsNoClearing(Cleared(tree, last), path, rest);
        var kept := Without(rest, path) + [last];
        assert kept[..|kept| - 1] == Without(rest, path);
      }
    }
  }

  /** One more path to clear, where nothing stood before. */
  lemma ClearingOneMore(tree: Tree, path: Path, entry: Option<Tree>, paths: seq<Path>)
    requires Lookup(tree, path).None?
    ensures ClearedAll(tree, paths + [path]) == ClearedAll(tree, paths)
    ensures Placeable(tree, path) ==> ClearedAll(Put(tree, path, entry), paths + [path]) == ClearedAll(tree, paths)
  {
    assert (paths + [path])[..|paths|] == paths;
    ClearedMissing(tree, path);
    if Placeable(tree, path) {
      ClearedAfterPut(tree, path, entry);
    }
  }

  /** A directory just made is empty, and taking it away undoes making it. */
  lemma OneMoreEmptied(tree: Tree, dir: Path, dirs: seq<Path>)
    requires Placeable(tree, dir) && Lookup(tree, dir).None? && Emptied(tree, dirs)
    ensures var made := Put(tree, dir, Some(Dir(map[])));
            && Emptied(made, dirs + [dir]) && ClearedAll(made, dirs + [dir]) == ClearedAll(tree, dirs)
            && Lookup(made, dir) == Some(Dir(map[]))
  {
    var made := Put(tree, dir, Some(Dir(map[])));
    assert (dirs + [dir])[..|dirs|] == dirs;
    PutThenSame(tree, dir, Some(Dir(map[])), None);
    ClearedAfterPut(tree, dir, Some(Dir(map[])));
    ClearedMissing(tree, dir);
    assert Cleared(made, dir) == tree;
  }

  /** `tree` with every missing directory along `path` made. */
  function WithDirectories(tree: Tree, path: Path): (after: Tree)
    decreases |path|
  {
    if path == [] || !tree.Dir? then tree
    else
      var child := if path[0] in tree.children then tree.children[path[0]] else Dir(map[]);
      Dir(tree.children[path[0] := WithDirectories(child, path[1..])])
  }

  /** Making one missing directory along the path is part of making all of them. */
  lemma {:induction false} OneDirectoryMade(tree: Tree, part: Path, path: Path)
    requires part <= path && Placeable(tree, part) && Lookup(tree, part).None?
    ensures WithDirectories(Put(tree, part, Some(Dir(map[]))), path) == WithDirectories(tree, path)
    decreases |part|
  {
    assert path[0] == part[0] && part[1..] <= path[1..];
    if |part| > 1 {
      OneDirectoryMade(tree.children[part[0]], part[1..], path[1..]);
    } else {
      assert part == [part[0]];
      LookupEntry(tree.children, part[0]);
    }
  }

  lemma {:induction false} AllDirectoriesMade(tree: Tree, path: Path)
    requires Lookup(tree, path).Some? && Lookup(tree, path).value.Dir?
    ensures WithDirectories(tree, path) == tree
    decreases |path|
  {
    if path != [] {
      AllDirectoriesMade(tree.children[path[0]], path[1..]);
    }
  }

  /**
   * A running operation can be undone: its temporary entries cleared leave `made`, its directories cleared leave
   * `start`.
   */
  ghost predicate Reverts(root: Tree, temps: seq<Path>, dirs: seq<Path>, made: Tree, start: Tree) {
    && ClearedAll(root, temps) == made && Apart(temps)
    && Emptied(made, dirs) && ClearedAll(made, dirs) == start && Nested(dirs)
  }

  ghost predicate Undoable(root: Tree, temps: seq<Path>, dirs: seq<Path>, start: Tree) {
    Reverts(root, temps, dirs, ClearedAll(root, temps), start)
  }

  lemma RevertsIsUndoable(root: Tree, temps: seq<Path>, dirs: seq<Path>, made: Tree, start: Tree)
    requires Reverts(root, temps, dirs, made, start)
    ensures Undoable(root, temps, dirs, start)
  {
  }

  lemma {:induction false} NothingNewInside(tree: Tree, path: Path, name: string)
    requires Lookup(tree, path + [name]).None?
    ensures Lookup(WithDirectories(tree, path), path + [name]).None?
    decreases |path|
  {
    if path == [] {
      assert path + [name] == [name];
    } else if tree.Dir? {
      assert (path + [name])[1..] == path[1..] + [name];
      if path[0] in tree.children {
        NothingNewInside(tree.children[path[0]], path[1..], name);
      } else {
        assert path[1..] + [name] != [];
        NothingNewInside(Dir(map[]), path[1..], name);
      }
    }
  }

  lemma TempRegistered(root: Tree, temps: seq<Path>, dirs: seq<Path>, made: Tree, start: Tree, path: Path)
    requires Reverts(root, temps, dirs, made, start) && Lookup(root, path).None?
    requires forall i :: 0 <= i < |temps| ==> Disjoint(temps[i], path)
    ensures Reverts(root, temps + [path], dirs, made, start)
    ensures Placeable(root, path) ==> forall e :: Reverts(Put(root, path, e), temps + [path], dirs, made, start)
  {
    forall e | Placeable(root, path)
      ensures Reverts(Put(root, path, e), temps + [path], dirs, made, start)
    {
      ClearingOneMore(root, path, e, temps);
    }
    ClearingOneMore(root, path, None, temps);
  }

  lemma TempRewritten(root: Tree, temps: seq<Path>, dirs: seq<Path>, made: Tree, start: Tree, path: Path,
                      e: Option<Tree>)
    requires Reverts(root, temps, dirs, made, start) && path in temps && Placeable(root, path)
    ensures Reverts(Put(root, path, e), temps, dirs, made, start)
  {
    RewriteIsCleared(root, path, e, temps);
  }

  lemma WithoutStaysApart(paths: seq<Path>, path: Path)
    requires Apart(paths)
    ensures Apart(Without(paths, path))
  {
    if paths != [] {
      var init := paths[..|paths| - 1];
      WithoutStaysApart(init, path);
      forall i | 0 <= i < |Without(init, path)|
        ensures Disjoint(Without(init, path)[i], paths[|paths| - 1])
      {
        assert Without(init, path)[i] in Without(init, path);
        var j :| 0 <= j < |init| && init[j] == Without(init, path)[i];
        assert paths[j] == init[j];
      }
    }
  }

  lemma TempGone(root: Tree, temps: seq<Path>, dirs: seq<Path>, made: Tree, start: Tree, path: Path)
    requires Reverts(root, temps, dirs, made, start) && path in temps && Lookup(root, path).None?
    ensures Reverts(root, Without(temps, path), dirs, made, start)
  {
    var k :| 0 <= k < |temps| && temps[k] == path;
    assert forall i :: 0 <= i < |temps| && i != k ==> Disjoint(path, temps[i]);
    MissingNeedsNoClearing(root, path, temps);
    WithoutStaysApart(temps, path);
  }

  // ---------------------------------------------------------------------------------------------
  // The order in which provisional directories are removed

  /** Inserts after every path whose text is at least as long. */
  function InsertByLength(sorted: seq<Path>, path: Path): (after: seq<Path>) {
    if sorted == [] || |Render(sorted[0])| < |Render(path)| then [path] + sorted
    else [sorted[0]] + InsertByLength(sorted[1..], path)
  }

  /** Stable sort, longest text first. */
  function DeepestFirst(paths: seq<Path>): (sorted: seq<Path>) {
    if paths == [] then [] else InsertByLength(DeepestFirst(paths[..|paths| - 1]), paths[|paths| - 1])
  }

  /** Each directory lies inside the one before. */
  predicate Nested(dirs: seq<Path>) {
    && (forall i :: 0 <= i < |dirs| ==> dirs[i] != [] && AllNames(dirs[i]))
    && (forall i :: 0 < i < |dirs| ==> dirs[i - 1] <= dirs[i] && dirs[i - 1] != dirs[i])
  }

  function Backwards(paths: seq<Path>): (reversed: seq<Path>)
    ensures |reversed| == |paths| && forall i :: 0 <= i < |paths| ==> reversed[i] == paths[|paths| - 1 - i]
  {
    if paths == [] then [] else [paths[|paths| - 1]] + Backwards(paths[..|paths| - 1])
  }

  lemma SortKeepsAll(paths: seq<Path>, path: Path)
    ensures path in DeepestFirst(paths) <==> path in paths
  {
    if paths != [] {
      var init, last := paths[..|paths| - 1], paths[|paths| - 1];
      assert paths == init + [last];
      InsertKeeps(DeepestFirst(init), last, path);
      SortKeepsAll(init, path);
    }
  }

  lemma SortKeepsLength(paths: seq<Path>)
    ensures |DeepestFirst(paths)| == |paths|
  {
    if paths != [] {
      SortKeepsLength(paths[..|paths| - 1]);
      InsertLength(DeepestFirst(paths[..|paths| - 1]), paths[|paths| - 1]);
    }
  }

  lemma InsertLength(sorted: seq<Path>, path: Path)
    ensures |InsertByLength(sorted, path)| == |sorted| + 1
  {
  }

  lemma InsertKeeps(sorted: seq<Path>, path: Path, other: Path)
    ensures other in InsertByLength(sorted, path) <==> other == path || other in sorted
  {
  }

  /** Sorting nested directories by the length of their text visits the deepest one first. */
  lemma {:induction false} LongestIsDeepest(dirs: seq<Path>)
    requires Nested(dirs)
    ensures DeepestFirst(dirs) == Backwards(dirs)
  {
    if dirs != [] {
      var init := dirs[..|dirs| - 1];
      LongestIsDeepest(init);
      if init != [] {
        RenderLength(dirs[|dirs| - 2], dirs[|dirs| - 1]);
        assert DeepestFirst(init)[0] == dirs[|dirs| - 2];
      }
    }
  }
}
