/** Remote directory trees as values: reading and replacing what stands at a path, and overlaying trees. */
module RemoteTree {
  import opened Wrappers

  type Path = seq<string>

  datatype Tree =
    | File(content: string)
    | Link(target: string)
    | Special
    | Dir(children: map<string, Tree>)

  function Lookup(tree: Tree, path: Path): (found: Option<Tree>)
    decreases |path|
  {
    if path == [] then Some(tree)
    else if tree.Dir? && path[0] in tree.children then Lookup(tree.children[path[0]], path[1..])
    else None
  }

  function Entry(children: map<string, Tree>, name: string): (entry: Option<Tree>) {
    if name in children then Some(children[name]) else None
  }

  function WithEntry(children: map<string, Tree>, name: string, entry: Option<Tree>): (after: map<string, Tree>) {
    if entry.Some? then children[name := entry.value] else children - {name}
  }

  /** The directory that would hold `path` exists. */
  predicate Placeable(tree: Tree, path: Path)
    decreases |path|
  {
    && path != [] && tree.Dir?
    && (|path| > 1 ==> path[0] in tree.children && Placeable(tree.children[path[0]], path[1..]))
  }

  /** `tree` with `entry` (or nothing) standing at `path`. */
  function Put(tree: Tree, path: Path, entry: Option<Tree>): (after: Tree)
    requires Placeable(tree, path)
    ensures after.Dir?
    decreases |path|
  {
    if |path| == 1 then Dir(WithEntry(tree.children, path[0], entry))
    else Dir(tree.children[path[0] := Put(tree.children[path[0]], path[1..], entry)])
  }

  lemma {:induction false} FoundIsPlaceable(tree: Tree, path: Path)
    requires path != [] && Lookup(tree, path).Some?
    ensures Placeable(tree, path)
    decreases |path|
  {
    if |path| > 1 {
      FoundIsPlaceable(tree.children[path[0]], path[1..]);
    }
  }

  predicate Disjoint(p: Path, q: Path) {
    !(p <= q) && !(q <= p)
  }

  lemma DisjointBelow(p: Path, q: Path)
    requires Disjoint(p, q)
    ensures p != [] && q != []
    ensures p[0] == q[0] ==> |p| > 1 && |q| > 1 && Disjoint(p[1..], q[1..])
  {
    if p[0] == q[0] {
      assert p == [p[0]] + p[1..] && q == [q[0]] + q[1..];
    }
  }

  /** What was put is what is found, and putting again forgets the first put. */
  lemma {:induction false} PutThenSame(tree: Tree, path: Path, entry: Option<Tree>, next: Option<Tree>)
    requires Placeable(tree, path)
    ensures Lookup(Put(tree, path, entry), path) == entry
    ensures Placeable(Put(tree, path, entry), path)
    ensures Put(Put(tree, path, entry), path, next) == Put(tree, path, next)
    decreases |path|
  {
    if |path| > 1 {
      PutThenSame(tree.children[path[0]], path[1..], entry, next);
    }
  }

  /** Putting back what is there changes nothing. */
  lemma {:induction false} PutFound(tree: Tree, path: Path)
    requires Placeable(tree, path)
    ensures Put(tree, path, Lookup(tree, path)) == tree
    decreases |path|
  {
    if |path| > 1 {
      PutFound(tree.children[path[0]], path[1..]);
    }
  }

  /** A put at one path is not seen at a disjoint one. */
  lemma {:induction false} PutUnseen(tree: Tree, p: Path, a: Option<Tree>, q: Path)
    requires Disjoint(p, q) && Placeable(tree, p)
    ensures Lookup(Put(tree, p, a), q) == Lookup(tree, q)
    ensures Placeable(Put(tree, p, a), q) <==> Placeable(tree, q)
    decreases |p|
  {
    DisjointBelow(p, q);
    if p[0] == q[0] {
      PutUnseen(tree.children[p[0]], p[1..], a, q[1..]);
    }
  }

  lemma DisjointIsSymmetric(p: Path, q: Path)
    ensures Disjoint(p, q) <==> Disjoint(q, p)
  {
  }

  /** Puts at disjoint paths commute. */
  lemma {:induction false} PutsCommute(tree: Tree, p: Path, a: Option<Tree>, q: Path, b: Option<Tree>)
    requires Disjoint(p, q) && Placeable(tree, p) && Placeable(tree, q)
    ensures Placeable(Put(tree, p, a), q) && Placeable(Put(tree, q, b), p)
    ensures Put(Put(tree, p, a), q, b) == Put(Put(tree, q, b), p, a)
    decreases |p|
  {
    DisjointIsSymmetric(p, q);
    hide Lookup, Disjoint;
    PutUnseen(tree, p, a, q);
    PutUnseen(tree, q, b, p);
    DisjointBelow(p, q);
    if p[0] == q[0] {
      PutsCommute(tree.children[p[0]], p[1..], a, q[1..], b);
    }
  }

  lemma PutThenOther(tree: Tree, p: Path, a: Option<Tree>, q: Path, b: Option<Tree>)
    requires Disjoint(p, q) && Placeable(tree, p)
    ensures Lookup(Put(tree, p, a), q) == Lookup(tree, q)
    ensures Placeable(Put(tree, p, a), q) <==> Placeable(tree, q)
    ensures Placeable(tree, q) ==>
              Placeable(Put(tree, q, b), p) && Put(Put(tree, p, a), q, b) == Put(Put(tree, q, b), p, a)
  {
    PutUnseen(tree, p, a, q);
    if Placeable(tree, q) {
      PutsCommute(tree, p, a, q, b);
    }
  }

  lemma LookupEntry(children: map<string, Tree>, name: string)
    ensures Lookup(Dir(children), [name]) == Entry(children, name)
  {
    assert [name][1..] == [];
    if name in children {
      assert Lookup(children[name], []) == Some(children[name]);
    }
  }

  /** A path below `path` is reached, and replaced, inside what stands at `path`. */
  lemma {:induction false} PutBelow(tree: Tree, path: Path, children: map<string, Tree>, name: string,
                                    entry: Option<Tree>)
    requires path != [] && Lookup(tree, path) == Some(Dir(children))
    ensures Placeable(tree, path) && Placeable(tree, path + [name])
    ensures Lookup(tree, path + [name]) == Entry(children, name)
    ensures Put(tree, path + [name], entry) == Put(tree, path, Some(Dir(WithEntry(children, name, entry))))
    decreases |path|
  {
    assert (path + [name])[1..] == path[1..] + [name];
    if |path| > 1 {
      PutBelow(tree.children[path[0]], path[1..], children, name, entry);
    } else {
      assert path[1..] == [] && (path + [name])[1..] == [name];
      assert tree.children[path[0]] == Dir(children);
      LookupEntry(children, name);
    }
  }

  /** Replacing one name of a directory just put at `path`. */
  lemma PutWithin(tree: Tree, path: Path, children: map<string, Tree>, name: string, entry: Option<Tree>)
    requires Placeable(tree, path)
    ensures var dir := Put(tree, path, Some(Dir(children)));
            && Lookup(dir, path) == Some(Dir(children))
            && Placeable(dir, path + [name]) && Lookup(dir, path + [name]) == Entry(children, name)
            && Put(dir, path + [name], entry) == Put(tree, path, Some(Dir(WithEntry(children, name, entry))))
    ensures Lookup(Put(tree, path, Some(Dir(WithEntry(children, name, entry)))), path)
            == Some(Dir(WithEntry(children, name, entry)))
    ensures Lookup(Put(tree, path, Some(Dir(WithEntry(children, name, entry)))), path + [name]) == entry
  {
    var after := Some(Dir(WithEntry(children, name, entry)));
    PutThenSame(tree, path, Some(Dir(children)), after);
    PutThenSame(tree, path, after, None);
    PutBelow(Put(tree, path, Some(Dir(children))), path, children, name, entry);
    PutThenSame(Put(tree, path, Some(Dir(children))), path + [name], entry, None);
  }

  // ---------------------------------------------------------------------------------------------
  // Overlays

  /** The merge of `source` onto `target`: directories merge entry by entry, anything else is replaced. */
  function Overlay(target: Tree, source: Tree): (merged: Tree)
    decreases source
  {
    if target.Dir? && source.Dir? then
      Dir(map name | name in target.children.Keys + source.children.Keys ::
            if name !in source.children then target.children[name]
            else if name !in target.children then source.children[name]
            else Overlay(target.children[name], source.children[name]))
    else source
  }

  function OverlayEntries(target: Option<Tree>, source: Option<Tree>): (merged: Option<Tree>) {
    if target.None? then source
    else if source.None? then target
    else Some(Overlay(target.value, source.value))
  }

  lemma OverlayPointwise(target: map<string, Tree>, source: map<string, Tree>, name: string)
    ensures Overlay(Dir(target), Dir(source)).Dir?
    ensures Entry(Overlay(Dir(target), Dir(source)).children, name)
            == OverlayEntries(Entry(target, name), Entry(source, name))
  {
  }

  /** Moving part of one entry from source to target leaves the overlay of the two directories alone. */
  lemma OverlayStep(target: map<string, Tree>, source: map<string, Tree>, name: string, t: Option<Tree>,
                    s: Option<Tree>)
    requires OverlayEntries(t, s) == OverlayEntries(Entry(target, name), Entry(source, name))
    ensures Overlay(Dir(WithEntry(target, name, t)), Dir(WithEntry(source, name, s)))
            == Overlay(Dir(target), Dir(source))
  {
    var target', source' := WithEntry(target, name, t), WithEntry(source, name, s);
    var before, after := Overlay(Dir(target), Dir(source)).children, Overlay(Dir(target'), Dir(source')).children;
    forall n
      ensures Entry(after, n) == Entry(before, n)
    {
      OverlayPointwise(target, source, n);
      OverlayPointwise(target', source', n);
    }
    SameEntries(after, before);
  }

  lemma SameEntries(a: map<string, Tree>, b: map<string, Tree>)
    requires forall n :: Entry(a, n) == Entry(b, n)
    ensures a == b
  {
    assert forall n :: n in a <==> Entry(a, n).Some?;
    assert forall n :: n in b <==> Entry(b, n).Some?;
    forall n | n in a
      ensures n in b && a[n] == b[n]
    {
      assert Entry(a, n) == Some(a[n]) == Entry(b, n);
    }
  }

  lemma OverlayNothing(target: map<string, Tree>)
    ensures Overlay(Dir(target), Dir(map[])) == Dir(target)
  {
    forall n
      ensures Entry(Overlay(Dir(target), Dir(map[])).children, n) == Entry(target, n)
    {
      OverlayPointwise(target, map[], n);
    }
    SameEntries(Overlay(Dir(target), Dir(map[])).children, target);
  }

  /** Every file, link and special entry of the source lands at its own path. */
  lemma {:induction false} SourceLands(target: Tree, source: Tree, path: Path)
    requires Lookup(source, path).Some? && !Lookup(source, path).value.Dir?
    ensures Lookup(Overlay(target, source), path) == Lookup(source, path)
    decreases |path|
  {
    if path != [] && target.Dir? && path[0] in target.children {
      SourceLands(target.children[path[0]], source.children[path[0]], path[1..]);
    }
  }

  /** A directory of the source is a directory of the overlay, also where the target has something else. */
  lemma {:induction false} SourceDirectoriesLand(target: Tree, source: Tree, path: Path)
    requires Lookup(source, path).Some? && Lookup(source, path).value.Dir?
    ensures Lookup(Overlay(target, source), path).Some? && Lookup(Overlay(target, source), path).value.Dir?
    decreases |path|
  {
    if path != [] && target.Dir? && path[0] in target.children {
      SourceDirectoriesLand(target.children[path[0]], source.children[path[0]], path[1..]);
    }
  }

  /** Nothing is in the overlay that neither the target nor the source has. */
  lemma {:induction false} NothingElseLands(target: Tree, source: Tree, path: Path)
    requires Lookup(Overlay(target, source), path).Some?
    ensures Lookup(source, path).Some? || Lookup(target, path) == Lookup(Overlay(target, source), path)
    decreases |path|
  {
    if path != [] && target.Dir? && source.Dir? && path[0] in target.children && path[0] in source.children {
      NothingElseLands(target.children[path[0]], source.children[path[0]], path[1..]);
    }
  }

  /**
   * What only the target has survives, unless a non-directory of the source takes the place of a directory above
   * it.
   */
  lemma {:induction false} TargetSurvives(target: Tree, source: Tree, path: Path)
    requires Lookup(target, path).Some? && Lookup(source, path).None?
    requires forall k :: 0 <= k <= |path| && Lookup(source, path[..k]).Some? ==> Lookup(source, path[..k]).value.Dir?
    ensures Lookup(Overlay(target, source), path) == Lookup(target, path)
    decreases |path|
  {
    assert path[..0] == [] && Lookup(source, []) == Some(source);
    if path != [] && path[0] in source.children {
      forall k | 0 <= k <= |path| - 1 && Lookup(source.children[path[0]], path[1..][..k]).Some?
        ensures Lookup(source.children[path[0]], path[1..][..k]).value.Dir?
      {
        assert path[..k + 1][1..] == path[1..][..k] && path[..k + 1][0] == path[0];
        assert Lookup(source, path[..k + 1]).value.Dir?;
      }
      TargetSurvives(target.children[path[0]], source.children[path[0]], path[1..]);
    }
  }

  // ---------------------------------------------------------------------------------------------
  // Two entries of one tree

  /** `tree` with `a` at `p` and `b` at `q`. */
  function Two(tree: Tree, p: Path, a: Option<Tree>, q: Path, b: Option<Tree>): (after: Tree)
    requires Disjoint(p, q) && Placeable(tree, p) && Placeable(tree, q)
  {
    PutThenOther(tree, p, a, q, b);
    Put(Put(tree, p, a), q, b)
  }

  lemma TwoFound(tree: Tree, p: Path, q: Path)
    requires Disjoint(p, q) && Placeable(tree, p) && Placeable(tree, q)
    ensures Two(tree, p, Lookup(tree, p), q, Lookup(tree, q)) == tree
  {
    PutFound(tree, p);
    PutFound(tree, q);
  }

  /** Replacing either entry again, and what is found there. */
  lemma TwoThen(tree: Tree, p: Path, a: Option<Tree>, q: Path, b: Option<Tree>, next: Option<Tree>)
    requires Disjoint(p, q) && Placeable(tree, p) && Placeable(tree, q)
    ensures var two := Two(tree, p, a, q, b);
            && Lookup(two, p) == a && Lookup(two, q) == b && Placeable(two, p) && Placeable(two, q)
            && Put(two, p, next) == Two(tree, p, next, q, b)
            && Put(two, q, next) == Two(tree, p, a, q, next)
  {
    PutThenOther(tree, p, a, q, b);
    PutThenOther(tree, p, next, q, b);
    PutThenOther(Put(tree, q, b), p, a, q, b);
    PutThenSame(tree, p, a, next);
    PutThenSame(tree, q, b, next);
    PutThenSame(Put(tree, p, a), q, b, next);
    PutThenSame(Put(tree, q, b), p, a, next);
  }

  lemma TwoThenTwo(tree: Tree, p: Path, a: Option<Tree>, q: Path, b: Option<Tree>, a': Option<Tree>, b': Option<Tree>)
    requires Disjoint(p, q) && Placeable(tree, p) && Placeable(tree, q)
    ensures var two := Two(tree, p, a, q, b);
            Placeable(two, p) && Placeable(two, q) && Two(two, p, a', q, b') == Two(tree, p, a', q, b')
  {
    TwoThen(tree, p, a, q, b, a');
    TwoThen(tree, p, a', q, b, b');
  }

  lemma DisjointChildren(p: Path, q: Path, name: string)
    requires Disjoint(p, q)
    ensures Disjoint(p + [name], q + [name])
  {
    PrefixOfParents(p, q, name);
    PrefixOfParents(q, p, name);
  }

  lemma PrefixOfParents(p: Path, q: Path, name: string)
    ensures p + [name] <= q + [name] ==> p <= q
  {
    if p + [name] <= q + [name] {
      assert p == (p + [name])[..|p|] == (q + [name])[..|p|] == q[..|p|];
    }
  }

  /** One more name of both directories replaced: again two entries of the original tree. */
  lemma TwoBelow(tree: Tree, p: Path, t: map<string, Tree>, q: Path, s: map<string, Tree>, name: string,
                 a: Option<Tree>, b: Option<Tree>)
    requires Disjoint(p, q) && p != [] && q != [] && Placeable(tree, p) && Placeable(tree, q)
    ensures Disjoint(p + [name], q + [name])
    ensures var two := Two(tree, p, Some(Dir(t)), q, Some(Dir(s)));
            && Placeable(two, p + [name]) && Placeable(two, q + [name])
            && Lookup(two, p + [name]) == Entry(t, name) && Lookup(two, q + [name]) == Entry(s, name)
            && Two(two, p + [name], a, q + [name], b)
               == Two(tree, p, Some(Dir(WithEntry(t, name, a))), q, Some(Dir(WithEntry(s, name, b))))
  {
    var two := Two(tree, p, Some(Dir(t)), q, Some(Dir(s)));
    DisjointChildren(p, q, name);
    var t' := Some(Dir(WithEntry(t, name, a)));
    var s' := Some(Dir(WithEntry(s, name, b)));
    TwoThen(tree, p, Some(Dir(t)), q, Some(Dir(s)), t');
    PutBelow(two, p, t, name, a);
    PutBelow(two, q, s, name, b);
    var half := Put(two, p + [name], a);
    assert half == Two(tree, p, t', q, Some(Dir(s)));
    TwoThen(tree, p, t', q, Some(Dir(s)), s');
    PutBelow(half, q, s, name, b);
  }

  /** Replacing one entry of a tree leaves the other where it was. */
  lemma TwoFromPut(tree: Tree, p: Path, a: Option<Tree>, q: Path)
    requires Disjoint(p, q) && Placeable(tree, p) && Placeable(tree, q)
    ensures Put(tree, p, a) == Two(tree, p, a, q, Lookup(tree, q))
    ensures Lookup(Put(tree, p, a), p) == a && Lookup(Put(tree, p, a), q) == Lookup(tree, q)
    ensures Placeable(Put(tree, p, a), p) && Placeable(Put(tree, p, a), q)
  {
    PutThenOther(tree, p, a, q, None);
    PutFound(Put(tree, p, a), q);
    PutThenSame(tree, p, a, None);
  }
}
