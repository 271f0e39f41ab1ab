/** One remote file system behind SFTP, and the recursive removal and merge that run on it. */
module RemoteFileSystem {
  import opened Wrappers
  import opened RemoteTree

  datatype Kind = AFile | ALink | ASpecial | ADirectory

  function KindOf(tree: Tree): (kind: Kind) {
    match tree case File(_) => AFile case Link(_) => ALink case Special => ASpecial case Dir(_) => ADirectory
  }

  datatype Stat = Found(kind: Kind) | Missing | Unanswered

  datatype Removal = Removed | NoSuchFile | Refused

  /** What a removal may leave of a tree: entries gone, nothing added or changed. */
  predicate Pruned(left: Option<Tree>, tree: Tree)
    decreases tree
  {
    left.None? || left.value == tree
    || (left.value.Dir? && tree.Dir?
        && forall name :: name in left.value.children ==>
             name in tree.children && Pruned(Some(left.value.children[name]), tree.children[name]))
  }

  /**
   * The remote tree. Every request may fail without effect, for any reason: a refused or lost
   * request, the operation deadline, or a cancelled operation.
   */
  class RemoteHost {
    var root: Tree
    const granting: bool     // every request is granted that the tree allows
    const undisturbed: bool  // the operation is neither cancelled nor late

    constructor (root: Tree, granting: bool, undisturbed: bool)
      ensures this.root == root && this.granting == granting && this.undisturbed == undisturbed
    {
      this.root, this.granting, this.undisturbed := root, granting, undisturbed;
    }

    /** Whether an operation that checks for cancellation, if it does, can be stopped by anything but the tree. */
    predicate Reliable(checked: bool) {
      granting && (checked ==> undisturbed)
    }

    method Lstat(path: Path) returns (stat: Stat)
      ensures stat.Found? ==> Lookup(root, path).Some? && stat.kind == KindOf(Lookup(root, path).value)
      ensures stat.Missing? ==> Lookup(root, path).None?
      ensures granting ==> !stat.Unanswered?
    {
      var answered: bool := *;
      answered := answered || granting;
      var entry := Lookup(root, path);
      stat := if !answered then Unanswered else if entry.Some? then Found(KindOf(entry.value)) else Missing;
    }

    /** The names of a directory, each once, in whatever order the host lists them. */
    method Readdir(path: Path) returns (names: Option<seq<string>>)
      ensures names.Some? ==>
                && Lookup(root, path).Some? && Lookup(root, path).value.Dir?
                && (forall n :: n in names.value <==> n in Lookup(root, path).value.children)
                && forall i, j :: 0 <= i < j < |names.value| ==> names.value[i] != names.value[j]
      ensures granting && Lookup(root, path).Some? && Lookup(root, path).value.Dir? ==> names.Some?
    {
      var answered: bool := *;
      answered := answered || granting;
      var entry := Lookup(root, path);
      if !answered || entry.None? || !entry.value.Dir? {
        return None;
      }
      var left, listed := entry.value.children.Keys, [];
      while left != {}
        invariant left <= entry.value.children.Keys
        invariant forall n :: n in listed <==> n in entry.value.children.Keys - left
        invariant forall i, j :: 0 <= i < j < |listed| ==> listed[i] != listed[j]
        decreases |left|
      {
        var name :| name in left;
        forall i | 0 <= i < |listed|
          ensures listed[i] != name
        {
          assert listed[i] in listed;
        }
        left, listed := left - {name}, listed + [name];
      }
      names := Some(listed);
    }

    method Unlink(path: Path) returns (ok: bool)
      modifies this
      ensures ok ==> path != [] && old(Lookup(root, path)).Some? && !old(Lookup(root, path)).value.Dir?
                     && Placeable(old(root), path) && root == Put(old(root), path, None)
      ensures !ok ==> root == old(root)
      ensures granting && path != [] && old(Lookup(root, path)).Some? && !old(Lookup(root, path)).value.Dir? ==> ok
    {
      var granted: bool := *;
      granted := granted || granting;
      var entry := Lookup(root, path);
      ok := granted && path != [] && entry.Some? && !entry.value.Dir?;
      if ok {
        FoundIsPlaceable(root, path);
        root := Put(root, path, None);
      }
    }

    method Rmdir(path: Path) returns (reply: Removal)
      modifies this
      ensures reply.Removed? ==> path != [] && old(Lookup(root, path)) == Some(Dir(map[]))
                                 && Placeable(old(root), path) && root == Put(old(root), path, None)
      ensures reply.NoSuchFile? ==> Lookup(root, path).None?
      ensures !reply.Removed? ==> root == old(root)
      ensures granting && path != [] && old(Lookup(root, path)) == Some(Dir(map[])) ==> reply.Removed?
    {
      var granted: bool := *;
      granted := granted || granting;
      if granted && Lookup(root, path).None? {
        return NoSuchFile;
      }
      if !granted || path == [] || Lookup(root, path) != Some(Dir(map[])) {
        return Refused;
      }
      FoundIsPlaceable(root, path);
      root := Put(root, path, None);
      reply := Removed;
    }

    method Mkdir(path: Path) returns (ok: bool)
      modifies this
      ensures ok ==> Placeable(old(root), path) && old(Lookup(root, path)).None?
                     && root == Put(old(root), path, Some(Dir(map[])))
      ensures !ok ==> root == old(root)
      ensures granting && Placeable(old(root), path) && old(Lookup(root, path)).None? ==> ok
    {
      var granted: bool := *;
      granted := granted || granting;
      ok := granted && Placeable(root, path) && Lookup(root, path).None?;
      if ok {
        root := Put(root, path, Some(Dir(map[])));
      }
    }

    /** Moves an entry to a free path outside it. */
    method Rename(from: Path, to: Path) returns (ok: bool)
      modifies this
      ensures ok ==> Disjoint(from, to) && old(Lookup(root, from)).Some? && old(Lookup(root, to)).None?
                     && Placeable(old(root), from) && Placeable(old(root), to)
                     && root == Two(old(root), to, old(Lookup(root, from)), from, None)
      ensures !ok ==> root == old(root)
      ensures (granting && Disjoint(from, to) && old(Lookup(root, from)).Some? && old(Lookup(root, to)).None?
               && Placeable(old(root), to)) ==> ok
    {
      var granted: bool := *;
      granted := granted || granting;
      var entry := Lookup(root, from);
      ok := granted && Disjoint(from, to) && entry.Some? && Lookup(root, to).None? && Placeable(root, to);
      if ok {
        FoundIsPlaceable(root, from);
        root := Two(root, to, entry, from, None);
      }
    }

    /** A tool run on the host leaves anything at all at `path`, and touches nothing else. */
    method RewriteAt(path: Path)
      modifies this
      ensures Placeable(old(root), path) ==>
                root == Put(old(root), path, Lookup(root, path))
      ensures !Placeable(old(root), path) ==> root == old(root)
    {
      var entry: Option<Tree> := *;
      if Placeable(root, path) {
        PutThenSame(root, path, entry, None);
        root := Put(root, path, entry);
      }
    }

    /** What a tool does with a file of its own that it no longer needs. */
    method Discard(path: Path)
      requires path != []
      modifies this
      ensures Lookup(root, path).None?
      ensures Placeable(old(root), path) ==> root == Put(old(root), path, None)
      ensures !Placeable(old(root), path) ==> root == old(root)
    {
      if Lookup(root, path).Some? {
        FoundIsPlaceable(root, path);
      }
      if Placeable(root, path) {
        PutThenSame(root, path, None, None);
        root := Put(root, path, None);
      }
    }

    /** The extraction tool, which never names a member after the staging directory it is given. */
    method ExtractInto(path: Path, staging: string) returns (ok: bool)
      modifies this
      ensures Placeable(old(root), path) ==>
                root == Put(old(root), path, Lookup(root, path))
      ensures !Placeable(old(root), path) ==> root == old(root)
      ensures Placeable(old(root), path) && Lookup(root, path).Some? && Lookup(root, path).value.Dir? ==>
                staging !in Lookup(root, path).value.children
    {
      ok := *;
      var entry: Option<Tree> := *;
      if entry.Some? && entry.value.Dir? {
        entry := Some(Dir(entry.value.children - {staging}));
      }
      if Placeable(root, path) {
        PutThenSame(root, path, entry, None);
        root := Put(root, path, entry);
      }
    }

    /** A cancellation or deadline check between two requests. */
    method StillActive(checked: bool) returns (active: bool)
      ensures !checked || undisturbed ==> active
    {
      active := *;
      if !checked || undisturbed { active := true; }
    }

    method PathExists(path: Path) returns (present: Option<bool>)
      ensures present.Some? ==> present.value == Lookup(root, path).Some?
      ensures granting ==> present.Some?
    {
      var stat := Lstat(path);
      present := match stat case Found(_) => Some(true) case Missing => Some(false) case Unanswered => None;
    }

    // -------------------------------------------------------------------------------------------
    // Recursive removal

    /** Removes whatever stands at `path`; a failure part way leaves a pruned tree there and nothing else changed. */
    method RemoveTree(path: Path, checked: bool, ghost tree: Tree) returns (ok: bool)
      requires path != []
      requires Lookup(root, path).Some? ==> Lookup(root, path).value == tree
      modifies this
      ensures ok ==> Lookup(root, path).None?
      ensures old(Lookup(root, path)).None? ==> root == old(root)
      ensures old(Lookup(root, path)).Some? ==>
                Placeable(old(root), path) && root == Put(old(root), path, Lookup(root, path))
      ensures Pruned(Lookup(root, path), tree)
      ensures Reliable(checked) ==> ok
      decreases tree, 1
    {
      hide Put, Lookup, Placeable;
      ghost var start := root;
      if Lookup(root, path).Some? {
        FoundIsPlaceable(root, path);
        PutFound(root, path);
        PutThenSame(start, path, None, None);
      }
      var active := StillActive(checked);
      if !active { return false; }
      var stat := Lstat(path);
      if stat.Unanswered? { return false; }
      if stat.Missing? { return true; }
      active := StillActive(checked);
      if !active { return false; }
      if !stat.kind.ADirectory? {
        ok := Unlink(path);
        return;
      }
      var names := Readdir(path);
      if names.None? { return false; }
      active := StillActive(checked);
      if !active { return false; }
      ok := RemoveEntries(path, names.value, checked, tree);
      if !ok { return; }
      active := StillActive(checked);
      if !active { return false; }
      PutThenSame(start, path, Some(Dir(map[])), None);
      var reply := Rmdir(path);
      ok := reply.Removed?;
    }

    /** Empties the directory at `path`, entry by entry in the listed order. */
    method RemoveEntries(path: Path, names: seq<string>, checked: bool, ghost tree: Tree) returns (ok: bool)
      requires path != [] && tree.Dir? && Lookup(root, path) == Some(tree)
      requires forall n :: n in names <==> n in tree.children
      requires forall i, j :: 0 <= i < j < |names| ==> names[i] != names[j]
      modifies this
      ensures Placeable(old(root), path) && root == Put(old(root), path, Lookup(root, path))
      ensures Pruned(Lookup(root, path), tree) && Lookup(root, path).Some? && Lookup(root, path).value.Dir?
      ensures ok ==> Lookup(root, path) == Some(Dir(map[]))
      ensures Reliable(checked) ==> ok
      decreases tree, 0
    {
      hide Put, Lookup, Placeable, Pruned, StillListed;
      ghost var start := root;
      FoundIsPlaceable(root, path);
      PutFound(root, path);
      ghost var children := tree.children;
      AllListed(names, children);
      for k := 0 to |names|
        invariant start == old(root)
        invariant StillListed(names, k, tree.children, children)
        invariant root == Put(start, path, Some(Dir(children)))
      {
        PutThenSame(start, path, Some(Dir(children)), None);
        ListedIsPruned(names, k, tree.children, children);
        var active := StillActive(checked);
        if !active { return false; }
        var name := names[k];
        NextListed(names, k, tree.children, children);
        PutWithin(start, path, children, name, None);
        ok := RemoveTree(path + [name], checked, tree.children[name]);
        ghost var left := Lookup(root, path + [name]);
        PutWithin(start, path, children, name, left);
        if !ok {
          PrunedBelow(names, k, tree.children, children, left);
          return;
        }
        children := WithEntry(children, name, None);
      }
      NoneListed(names, tree.children, children);
      ListedIsPruned(names, |names|, tree.children, children);
      PutThenSame(start, path, Some(Dir(map[])), None);
      ok := true;
    }

    // -------------------------------------------------------------------------------------------
    // Recursive merge

    /**
     * Merges the source entry onto the existing target. Success leaves exactly the overlay at the
     * target and nothing at the source. However far a failed merge got, nothing outside the two
     * entries changed and what stands there still overlays to the same tree, so nothing is lost and
     * merging again completes it.
     */
    method MergeEntry(source: Path, target: Path, ghost s: Tree, ghost t: Tree) returns (ok: bool)
      requires source != [] && target != [] && Disjoint(target, source)
      requires Lookup(root, source) == Some(s) && Lookup(root, target) == Some(t)
      modifies this
      ensures Placeable(old(root), target) && Placeable(old(root), source)
      ensures root == Two(old(root), target, Lookup(root, target), source, Lookup(root, source))
      ensures OverlayEntries(Lookup(root, target), Lookup(root, source)) == Some(Overlay(t, s))
      ensures ok ==> Lookup(root, target) == Some(Overlay(t, s)) && Lookup(root, source).None?
      ensures Reliable(true) ==> ok
      decreases s, 1
    {
      hide Put, Lookup, Placeable, Two;
      ghost var start := root;
      FoundIsPlaceable(root, source);
      FoundIsPlaceable(root, target);
      TwoFound(root, target, source);
      var active := StillActive(true);
      if !active { return false; }
      var sourceStat := Lstat(source);
      if !sourceStat.Found? { return false; }
      active := StillActive(true);
      if !active { return false; }
      var targetStat := Lstat(target);
      if !targetStat.Found? { return false; }
      active := StillActive(true);
      if !active { return false; }
      if !sourceStat.kind.ADirectory? || !targetStat.kind.ADirectory? {
        ok := ReplaceEntry(source, target, s, t);
        return;
      }
      var names := Readdir(source);
      if names.None? { return false; }
      active := StillActive(true);
      if !active { return false; }
      ok := MergeEntries(source, target, names.value, s, t);
      if !ok { return; }
      TwoThen(start, target, Lookup(root, target), source, Some(Dir(map[])), None);
      TwoThen(start, target, Lookup(root, target), source, None, None);
      OverlayNothing(Lookup(root, target).value.children);
      var reply := Rmdir(source);
      ok := reply.Removed?;
    }

    /** Anything but directory onto directory: the target goes, the source takes its place. */
    method ReplaceEntry(source: Path, target: Path, ghost s: Tree, ghost t: Tree) returns (ok: bool)
      requires source != [] && target != [] && Disjoint(target, source) && !(s.Dir? && t.Dir?)
      requires Lookup(root, source) == Some(s) && Lookup(root, target) == Some(t)
      modifies this
      ensures Placeable(old(root), target) && Placeable(old(root), source)
      ensures root == Two(old(root), target, Lookup(root, target), source, Lookup(root, source))
      ensures OverlayEntries(Lookup(root, target), Lookup(root, source)) == Some(Overlay(t, s))
      ensures ok ==> Lookup(root, target) == Some(Overlay(t, s)) && Lookup(root, source).None?
      ensures Reliable(true) ==> ok
    {
      hide Put, Lookup, Placeable, Two;
      ghost var start := root;
      FoundIsPlaceable(root, source);
      FoundIsPlaceable(root, target);
      ok := RemoveTree(target, false, t);
      TwoFromPut(start, target, Lookup(root, target), source);
      if !ok { return; }
      TwoThen(start, target, None, source, Some(s), None);
      ok := Rename(source, target);
      TwoThenTwo(start, target, None, source, Some(s), Some(s), None);
      MovedInto(start, target, s, source);
    }

    /** Merges the listed entries of two directories, leaving the source directory empty. */
    method MergeEntries(source: Path, target: Path, names: seq<string>, ghost s: Tree, ghost t: Tree) returns (ok: bool)
      requires source != [] && target != [] && Disjoint(target, source) && s.Dir? && t.Dir?
      requires Lookup(root, source) == Some(s) && Lookup(root, target) == Some(t)
      requires forall n :: n in names <==> n in s.children
      requires forall i, j :: 0 <= i < j < |names| ==> names[i] != names[j]
      modifies this
      ensures Placeable(old(root), target) && Placeable(old(root), source)
      ensures root == Two(old(root), target, Lookup(root, target), source, Lookup(root, source))
      ensures OverlayEntries(Lookup(root, target), Lookup(root, source)) == Some(Overlay(t, s))
      ensures Lookup(root, target).Some? && Lookup(root, target).value.Dir?
      ensures ok ==> Lookup(root, source) == Some(Dir(map[]))
      ensures Reliable(true) ==> ok
      decreases s, 0
    {
      hide Put, Lookup, Placeable, Two, Overlay, StillListed;
      ghost var start := root;
      FoundIsPlaceable(root, source);
      FoundIsPlaceable(root, target);
      TwoFound(root, target, source);
      ghost var sm, tm := s.children, t.children;
      AllListed(names, sm);
      for k := 0 to |names|
        invariant start == old(root)
        invariant StillListed(names, k, s.children, sm)
        invariant root == Two(start, target, Some(Dir(tm)), source, Some(Dir(sm)))
        invariant Overlay(Dir(tm), Dir(sm)) == Overlay(t, s)
      {
        TwoThen(start, target, Some(Dir(tm)), source, Some(Dir(sm)), None);
        var active := StillActive(true);
        if !active { return false; }
        var name := names[k];
        NextListed(names, k, s.children, sm);
        TwoBelow(start, target, tm, source, sm, name, None, None);
        ok := MoveOrMerge(source + [name], target + [name], s.children[name]);
        ghost var a, b := Lookup(root, target + [name]), Lookup(root, source + [name]);
        TwoBelow(start, target, tm, source, sm, name, a, b);
        OverlayStep(tm, sm, name, a, b);
        tm, sm := WithEntry(tm, name, a), WithEntry(sm, name, b);
        TwoThen(start, target, Some(Dir(tm)), source, Some(Dir(sm)), None);
        if !ok { return; }
      }
      NoneListed(names, s.children, sm);
      TwoThen(start, target, Some(Dir(tm)), source, Some(Dir(sm)), None);
      ok := true;
    }

    /** One child of a merged directory: merged when the target has it, moved when it does not. */
    method MoveOrMerge(source: Path, target: Path, ghost s: Tree) returns (ok: bool)
      requires source != [] && target != [] && Disjoint(target, source)
      requires Lookup(root, source) == Some(s) && Placeable(root, target) && Placeable(root, source)
      modifies this
      ensures root == Two(old(root), target, Lookup(root, target), source, Lookup(root, source))
      ensures OverlayEntries(Lookup(root, target), Lookup(root, source))
              == OverlayEntries(old(Lookup(root, target)), Some(s))
      ensures ok ==> Lookup(root, source).None?
      ensures Reliable(true) ==> ok
      decreases s, 2
    {
      hide Put, Lookup, Placeable, Two, Overlay;
      TwoFound(root, target, source);
      var present := PathExists(target);
      if present.None? { return false; }
      var active := StillActive(true);
      if !active { return false; }
      if present.value {
        ok := MergeEntry(source, target, s, Lookup(root, target).value);
      } else {
        MovedInto(root, target, s, source);
        ok := Rename(source, target);
      }
    }
  }

  /** From position `k` on, the listed names are exactly the entries of `children` still there, unchanged. */
  ghost predicate StillListed(names: seq<string>, k: nat, all: map<string, Tree>, children: map<string, Tree>) {
    && k <= |names| && (forall i, j :: 0 <= i < j < |names| ==> names[i] != names[j])
    && (forall i :: k <= i < |names| ==> names[i] in children)
    && (forall n :: n in children ==> n in names[k..] && n in all && children[n] == all[n])
  }

  lemma AllListed(names: seq<string>, all: map<string, Tree>)
    requires forall i, j :: 0 <= i < j < |names| ==> names[i] != names[j]
    requires forall n :: n in names <==> n in all
    ensures StillListed(names, 0, all, all)
  {
    assert names[0..] == names;
    assert forall i :: 0 <= i < |names| ==> names[i] in names;
  }

  lemma NextListed(names: seq<string>, k: nat, all: map<string, Tree>, children: map<string, Tree>)
    requires k < |names| && StillListed(names, k, all, children)
    ensures names[k] in children && names[k] in all && children[names[k]] == all[names[k]]
    ensures StillListed(names, k + 1, all, WithEntry(children, names[k], None))
  {
    assert names[k..] == [names[k]] + names[k + 1..];
  }

  lemma NoneListed(names: seq<string>, all: map<string, Tree>, children: map<string, Tree>)
    requires StillListed(names, |names|, all, children)
    ensures children == map[]
  {
  }

  lemma ListedIsPruned(names: seq<string>, k: nat, all: map<string, Tree>, children: map<string, Tree>)
    requires StillListed(names, k, all, children)
    ensures Pruned(Some(Dir(children)), Dir(all))
  {
  }

  lemma PrunedBelow(names: seq<string>, k: nat, all: map<string, Tree>, children: map<string, Tree>, left: Option<Tree>)
    requires k < |names| && StillListed(names, k, all, children) && names[k] in all && Pruned(left, all[names[k]])
    ensures Pruned(Some(Dir(WithEntry(children, names[k], left))), Dir(all))
  {
  }

  lemma MovedInto(tree: Tree, target: Path, s: Tree, source: Path)
    requires Disjoint(target, source) && Placeable(tree, target) && Placeable(tree, source)
    ensures var after := Two(tree, target, Some(s), source, None);
            Lookup(after, target) == Some(s) && Lookup(after, source) == None
  {
    TwoThen(tree, target, Some(s), source, None, None);
  }
}
